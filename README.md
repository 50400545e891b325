# Rezeki Hunter: a verified model of the food-rescue core

Rezeki Hunter lets students post leftover food, lets other students claim
it, and gives administrators a dashboard over all posts. This project
models three parts of it in Dafny:

- **The food endpoints** (module `FoodService`, with the row shape in
  `FoodRecord`). The `foods` table is a class `FoodTable`. Its rows are
  held in primary-key order. `store`, `claim` and `destroy` change the
  table in place, and `index`, `all`, `myFoods` and `stats` are pure
  queries over it. The invariant the class keeps is the claim invariant:
  a row is `taken` exactly when it has a claimer and a claim time, and
  the claimer is not the owner. Every mutating request also keeps
  `StatusesAdvance`: a row keeps its status or goes from `available` to
  `taken`, and a new row is `available`. So `expired` is never produced,
  and nothing leaves `taken`.
- **Accounts and tokens** (module `AuthService`). The class `UserStore`
  holds the `users` table and the personal access tokens. `hash` stands
  for the password hash, and a token is known by its id.
- **The admin dashboards** (module `DashboardCommon`, plus one module per
  page, `Dashboard` to `Dashboard5`). They cover:
  - the status tab and search filters;
  - the first N claims;
  - the rescue rate;
  - the location histogram, built by a loop over an accumulator, and its
    top N with the bar maximum;
  - the elapsed-time buckets;
  - the component state that fetches and deletes update, as the class
    `PanelState`.

  The five pages differ in these ways:
  - Searches: Dashboard4 matches the title or location, Dashboard3 each
    of title, location and poster name on its own, and Dashboard and
    Dashboard5 the three fields concatenated. Whatever one search finds,
    the next one finds too, and for some foods and queries it finds more.
  - N is 5 on Dashboard and Dashboard3, and 4 on Dashboard4 and
    Dashboard5. Dashboard5 has no expired tab.
  - Dashboard2 has no tabs, search, claims or locations. Its table lists
    the fetched foods as they come, with a status badge.
  - Deletes: Dashboard and Dashboard5 only refetch. Dashboard4 drops the
    food from the list, then refetches. Dashboard2 and Dashboard3 drop it
    from the list and lower `total_foods` by one, without a refetch.
  - Delete alerts: "Failed" on Dashboard and Dashboard5, "Failed to
    delete" on Dashboard3 and Dashboard4, and "Failed to delete: " with
    the server's message (or "Error") on Dashboard2.

Two behaviours of the code are worth stating up front:

- **Self-claim of a taken food.** `claim` checks availability (409)
  before ownership (403). So an owner claiming their own taken food gets
  409, and 403 only when the food is still available.
- **Rows that are not available.** No code path writes `expired`; the
  model lets such a row exist, taken to have no claimer, as a row that
  expired before anyone claimed it would. So "no claimer" does not imply
  "available", and `ClaimConsistent` ties the claim columns to the
  `taken` status only.

## Model

| member | source | states |
|---|---|---|
| Http.Code | app/Http/Controllers/Api/FoodController.php:79-89 | exactly the validation and credential failures are 422, exactly a refused role or self-claim 403, exactly a missing row 404, exactly a row no longer available 409 |
| FoodRecord.ParseStatus | database/migrations/2025_01_01_000002_create_foods_table.php:18 | the enum column accepts exactly the three status names, and a parsed name is that status's name |
| FoodRecord.StatusNameRoundTrip | database/migrations/2025_01_01_000002_create_foods_table.php:18 | every status is stored and read back as itself |
| FoodRecord.OnUserDeleted | database/migrations/2025_01_01_000002_create_foods_table.php:13-19 | after a user is deleted, no remaining row is owned by or claimed by that user; a row the user claimed but did not own survives with its claimer null; every remaining row is an old row, or an old row with the claimer nulled |
| FoodRecord.OnUserDeletedKeepsReferences | database/migrations/2025_01_01_000002_create_foods_table.php:13-19 | the cascade and set-null actions keep every owner and claimer reference pointing at a remaining user |
| FoodRecord.OnUserDeletedKeepsOthers | database/migrations/2025_01_01_000002_create_foods_table.php:13-19 | a row that references neither as owner nor as claimer the deleted user survives unchanged |
| FoodRecord.ClaimerDeletionBreaksClaimInvariant | database/migrations/2025_01_01_000002_create_foods_table.php:19 | there is a table where every row is claim-consistent, but nulling a deleted claimer leaves a taken row with no claimer |
| AuthService.FindById | app/Http/Controllers/Api/AuthController.php:76 | the row a token's user id names, which `$request->user()` resolves to, and none exactly when no row has that id |
| AuthService.FindByEmail | app/Http/Controllers/Api/AuthController.php:46 | the result is the first row with that email, and it is absent exactly when no row has it |
| AuthService.RegisterErrors | app/Http/Controllers/Api/AuthController.php:16-20 | each field is refused exactly when its rule fails: the name is missing or over 255; the email is missing, malformed or already taken; the password is missing, shorter than 6 or unconfirmed |
| AuthService.LoginErrors | app/Http/Controllers/Api/AuthController.php:41-44 | the request passes exactly when the email is present and well formed and a password is present |
| AuthService.Authenticate | app/Http/Controllers/Api/AuthController.php:46-52 | every failure is the same invalid-credentials error; a success is a user in the table with that email and that password's hash; with unique emails, it succeeds exactly when such a user exists |
| AuthService.UserStore.Register | app/Http/Controllers/Api/AuthController.php:14-35 | refuses with the failing fields and changes nothing; otherwise appends exactly one student with the hashed password and issues one new token for that user |
| AuthService.UserStore.Login | app/Http/Controllers/Api/AuthController.php:39-61 | unknown email and wrong password give the same error and change nothing; a success adds one token for the user and keeps their other tokens |
| AuthService.UserStore.Logout | app/Http/Controllers/Api/AuthController.php:64-71 | removes the current token only, so the user's other tokens stay valid |
| AuthService.UserStore.CurrentUser | app/Http/Controllers/Api/AuthController.php:74-77 | the user the current token was issued to, read without any change |
| AuthService.UserStore.UpdateFcmToken | app/Http/Controllers/Api/AuthController.php:80-93 | a missing or blank token is refused without change; otherwise only the caller's `fcm_token` field changes |
| FoodService.PostErrors | app/Http/Controllers/Api/FoodController.php:43-48 | the title or the location is refused exactly when missing, blank or over 255; the image exactly when one is sent and it is not a jpeg/jpg/png/webp of at most 5120 KB |
| FoodService.SortNewest | app/Http/Controllers/Api/FoodController.php:15-16 | the result is a permutation of its input, newest first |
| FoodService.WithStatus | app/Http/Controllers/Api/FoodController.php:19-23 | keeps every row whose stored status string equals the parameter, as many times as it occurs, and no other |
| FoodService.OwnedBy | app/Http/Controllers/Api/FoodController.php:143 | keeps exactly the rows of that owner |
| FoodService.Index | app/Http/Controllers/Api/FoodController.php:13-28 | newest first; without a status parameter exactly the available rows, with one exactly the rows whose status string equals it |
| FoodService.IndexUnknownStatusIsEmpty | app/Http/Controllers/Api/FoodController.php:19-20 | a status parameter outside the enum lists nothing |
| FoodService.All | app/Http/Controllers/Api/FoodController.php:31-38 | every row exactly once, newest first |
| FoodService.MyFoods | app/Http/Controllers/Api/FoodController.php:141-148 | exactly the caller's rows, newest first |
| FoodService.Count | app/Http/Controllers/Api/FoodController.php:134-136 | `where('status', …)->count()`: the number of rows with that status, at most the number of rows |
| FoodService.CountAppend | app/Http/Controllers/Api/FoodController.php:134-136 | a status count splits over concatenation |
| FoodService.CountsPartition | app/Http/Controllers/Api/FoodController.php:133-136 | the three status counts add up to the number of rows |
| FoodService.StatsOf | app/Http/Controllers/Api/FoodController.php:130-138 | `total_foods` is the row count and equals available + taken + expired, all non-negative |
| FoodService.WithStatusCount | app/Http/Controllers/Api/FoodController.php:134-136 | a status count is the length of that status's listing |
| FoodService.StatsMatchListings | app/Http/Controllers/Api/FoodController.php:130-138 | each stats figure equals the length of the matching listing (`index` by default or by status, and `all`) |
| FoodService.Find | app/Http/Controllers/Api/FoodController.php:77 | finds a row with that id, and finds none exactly when no row has it |
| FoodService.ClaimRefusal | app/Http/Controllers/Api/FoodController.php:77-89 | a missing row is 404, then a row not available is 409 (even for its owner), then the owner of an available row gets 403; nothing else is refused |
| FoodService.Claimed | app/Http/Controllers/Api/FoodController.php:91-95 | the claimed row is taken, with that claimer and time, satisfies the claim invariant, and keeps its other columns |
| FoodService.SecondClaimConflicts | app/Http/Controllers/Api/FoodController.php:79-95 | after one successful claim, any further claim of that row is refused with 409 |
| FoodService.DestroyRefusal | app/Http/Controllers/Api/FoodController.php:108-114 | a non-admin gets 403 whether or not the row exists; an admin gets 404 exactly for a missing row |
| FoodService.StatsAfterClaim | app/Http/Controllers/Api/FoodController.php:91-95 | a claim moves one row from available to taken in the stats, and the total stays |
| FoodService.StatsAfterPost | app/Http/Controllers/Api/FoodController.php:57-64 | a post adds one to the total and one to available |
| FoodService.StatsAfterDelete | app/Http/Controllers/Api/FoodController.php:122 | a deletion takes one from the total and one from the deleted row's status |
| FoodService.FindOwnKey | app/Http/Controllers/Api/FoodController.php:77 | with increasing keys, looking up a row's id finds that row |
| FoodService.AdvanceUnchanged | app/Http/Controllers/Api/FoodController.php:79-89 | a refused request leaves every status where it was |
| FoodService.AdvanceByAppend | app/Http/Controllers/Api/FoodController.php:57-64 | appending an available row with a fresh id moves no status backwards |
| FoodService.AdvanceByUpdate | app/Http/Controllers/Api/FoodController.php:91-95 | changing one row from available to taken moves no status backwards |
| FoodService.AdvanceByRemoval | app/Http/Controllers/Api/FoodController.php:122 | removing a row moves no status of the remaining rows |
| FoodService.FoodTable.Store | app/Http/Controllers/Api/FoodController.php:41-72 | refuses with the failing fields and no change; otherwise appends exactly one available row owned by the caller, with no claimer, and with an image URL only when a file was sent |
| FoodService.FoodTable.Claim | app/Http/Controllers/Api/FoodController.php:75-103 | each refusal leaves the table unchanged; a success replaces that one row by its claimed form; the claim invariant is kept |
| FoodService.FoodTable.Destroy | app/Http/Controllers/Api/FoodController.php:106-127 | each refusal leaves the table unchanged; a success removes exactly that row and no other |
| FoodService.ClaimTwice | app/Http/Controllers/Api/FoodController.php:75-103 | of two claims of one food in a row, at most one succeeds, and after a success the next is refused with 409 |
| DashboardCommon.Lower | admin-panel/src/pages/Dashboard.jsx:60 | lowercasing keeps the length and maps each character |
| DashboardCommon.LowerAppend | admin-panel/src/pages/Dashboard.jsx:60 | lowercasing a concatenation is the concatenation of the lowercased parts |
| DashboardCommon.ContainsEmpty | admin-panel/src/pages/Dashboard.jsx:60 | every string includes the empty search |
| DashboardCommon.ContainsInLeft | admin-panel/src/pages/Dashboard3.jsx:69-71 | a text found in a field is found in that field followed by others |
| DashboardCommon.ContainsInRight | admin-panel/src/pages/Dashboard3.jsx:69-71 | a text found in a field is found in other fields followed by that field |
| DashboardCommon.Keep | admin-panel/src/pages/Dashboard.jsx:58-61 | a food is kept exactly when it was fetched and passes the test |
| DashboardCommon.KeepAppend | admin-panel/src/pages/Dashboard.jsx:58-61 | filtering distributes over concatenation, so order is kept |
| DashboardCommon.KeepAll | admin-panel/src/pages/Dashboard.jsx:58-61 | a filter every food passes returns the list itself |
| DashboardCommon.Take | admin-panel/src/pages/Dashboard.jsx:62 | `slice(0, n)` keeps the first n items, or all of them when there are fewer |
| DashboardCommon.FirstTaken | admin-panel/src/pages/Dashboard.jsx:62 | the first n taken foods in fetched order, all of them when fewer |
| DashboardCommon.RoundedPercent | admin-panel/src/pages/Dashboard.jsx:63 | the rounded percentage is the nearest integer to 100·taken/total, and lies in 0..100 when 0 ≤ taken ≤ total |
| DashboardCommon.RescueRate | admin-panel/src/pages/Dashboard.jsx:63 | 0 when the total is 0, otherwise 100·taken/total rounded half up, and within 0..100 when 0 ≤ taken ≤ total (the same expression is Dashboard3.jsx:76, Dashboard4.jsx:46 and Dashboard5.jsx:50) |
| DashboardCommon.TimeAgo | admin-panel/src/pages/Dashboard.jsx:50-56 | just now under 60 s; k minutes with k in 1..59 under an hour; k hours with k in 1..23 under a day; otherwise k ≥ 1 days; k is the whole number of units elapsed (the same buckets are Dashboard2.jsx:60-66, Dashboard3.jsx:59-65, Dashboard4.jsx:37 and the nested conditional of Dashboard5.jsx:45) |
| DashboardCommon.KeyIndex | admin-panel/src/pages/Dashboard.jsx:65 | finds the first entry for a location, and finds none exactly when no entry has it |
| DashboardCommon.BumpUpdatesOneKey | admin-panel/src/pages/Dashboard.jsx:65 | one update `Bump` of an accumulator without inherited keys: the count read under the location (0 when absent) goes up by one, a new key goes at the end, and no other entry changes |
| DashboardCommon.CountLocations | admin-panel/src/pages/Dashboard.jsx:65 | the reduce loop computes the left fold of the histogram update over the fetched foods, on an accumulator with no inherited keys |
| DashboardCommon.BumpObjectUpdatesOneKey | admin-panel/src/pages/Dashboard.jsx:65 | one update `BumpObject` of the `{}` accumulator as written: other entries are kept, any new key is the location, every location but `__proto__` becomes an own key, and `__proto__` leaves the object as it was |
| DashboardCommon.TallyObject | admin-panel/src/pages/Dashboard.jsx:64-65 | the reduce from `{}` as written: at most one key per food, and never an own `__proto__` key |
| DashboardCommon.OwnIndex | admin-panel/src/pages/Dashboard.jsx:65 | finds the first own key of the `{}` accumulator equal to a location, and none exactly when there is none |
| DashboardCommon.ObjectTallyOffPrototype | admin-panel/src/pages/Dashboard.jsx:65 | when no location names an `Object.prototype` property, the reduce over `{}` gives exactly the histogram, with numeric counts |
| DashboardCommon.ProtoLocationDropped | admin-panel/src/pages/Dashboard.jsx:65 | a food at `__proto__` is never counted by the reduce over `{}`, though the histogram lists it |
| DashboardCommon.ConstructorCountIsText | admin-panel/src/pages/Dashboard.jsx:65 | two foods at `constructor` leave the string "function Object() { [native code] }11" where the histogram has 2 |
| DashboardCommon.SumAppend | admin-panel/src/pages/Dashboard.jsx:65 | the sum of counts grows by an appended entry's count |
| DashboardCommon.SumUpdate | admin-panel/src/pages/Dashboard.jsx:65 | replacing one entry changes the sum by the difference of counts |
| DashboardCommon.OccurrencesSnoc | admin-panel/src/pages/Dashboard.jsx:65 | one more food adds one to its location's count and none to the others |
| DashboardCommon.BumpKeepsDistinct | admin-panel/src/pages/Dashboard.jsx:65 | counting one more food keeps the locations distinct |
| DashboardCommon.BumpKeepsCover | admin-panel/src/pages/Dashboard.jsx:65 | counting one more food keeps every seen location present |
| DashboardCommon.BumpKeepsCounts | admin-panel/src/pages/Dashboard.jsx:65 | counting one more food keeps every count equal to its number of foods |
| DashboardCommon.BumpSum | admin-panel/src/pages/Dashboard.jsx:65 | counting one more food adds one to the sum of counts |
| DashboardCommon.BumpKeepsHistogram | admin-panel/src/pages/Dashboard.jsx:65 | one update step keeps the histogram property |
| DashboardCommon.OccurrencesAbsent | admin-panel/src/pages/Dashboard.jsx:65 | a location with no entry has no foods |
| DashboardCommon.TallyIsHistogram | admin-panel/src/pages/Dashboard.jsx:64-65 | the corrected fold `Tally` of `Bump` over the foods is the histogram: it has distinct locations, each count is that location's number of foods (at least 1), every food's location appears, and the counts sum to the number of foods |
| DashboardCommon.InsertByCount | admin-panel/src/pages/Dashboard.jsx:66 | inserting into a list sorted by count keeps it sorted and adds exactly that entry |
| DashboardCommon.SortByCount | admin-panel/src/pages/Dashboard.jsx:66 | the sort by descending count is a permutation with non-increasing counts |
| DashboardCommon.SortedSplit | admin-panel/src/pages/Dashboard.jsx:66 | cutting a sorted list leaves nothing after the cut above the last kept entry |
| DashboardCommon.TopEntries | admin-panel/src/pages/Dashboard.jsx:64-66 | the first min(n, entries) by count: non-increasing, drawn from the entries, and no left-out entry has a larger count than the last kept one |
| DashboardCommon.TopKeepsCounts | admin-panel/src/pages/Dashboard.jsx:64-66 | each kept entry keeps its true count |
| DashboardCommon.SubDistinct | admin-panel/src/pages/Dashboard.jsx:64-66 | entries drawn from a histogram keep its locations distinct |
| DashboardCommon.OmittedBounded | admin-panel/src/pages/Dashboard.jsx:64-66 | a location left out implies the list is full, and that location has no more foods than the last kept entry |
| DashboardCommon.RankLocations | admin-panel/src/pages/Dashboard.jsx:64-66 | at most n entries with distinct locations, non-increasing, each a location of the foods with its true count, and a location is left out only when the list is full and it has no more foods than the last kept entry |
| DashboardCommon.BarsFit | admin-panel/src/pages/Dashboard.jsx:67 | the maximum is the first count or 1; both ways the pages read it agree; every bar lies between 1 and the maximum, so no bar exceeds its track (the same for `maxLocationCount` at Dashboard3.jsx:83, `maxLoc` at Dashboard4.jsx:49 and `maxL` at Dashboard5.jsx:52) |
| DashboardCommon.WithoutId | admin-panel/src/pages/Dashboard3.jsx:43 | exactly the fetched foods whose id differs from the deleted one |
| DashboardCommon.DecrementTotal | admin-panel/src/pages/Dashboard3.jsx:44 | the total drops by one and the three status counts stay |
| DashboardCommon.PanelState.constructor | admin-panel/src/pages/Dashboard.jsx:11-14 | empty stats and list, nothing being deleted, loading |
| DashboardCommon.PanelState.Fetch | admin-panel/src/pages/Dashboard.jsx:21-28 | a successful fetch replaces stats and foods together, a failed one keeps both, and loading ends either way |
| Dashboard.Rows | admin-panel/src/pages/Dashboard.jsx:58-61 | a food is listed exactly when it is on the tab and the lowercased title + location + poster name contains the lowercased search (Dashboard5.jsx:48 is the same filter) |
| Dashboard.RowsShowEverything | admin-panel/src/pages/Dashboard.jsx:58-61 | with the `all` tab and an empty search, every fetched food is listed in fetched order |
| Dashboard.Claims | admin-panel/src/pages/Dashboard.jsx:62 | the first five taken foods in fetched order |
| Dashboard.Locs | admin-panel/src/pages/Dashboard.jsx:64-66 | a ranking of at most five distinct locations with true counts, largest first, omitting none that outranks the last kept |
| Dashboard.DoDelete | admin-panel/src/pages/Dashboard.jsx:36-42 | a declined confirm sends nothing and changes nothing; otherwise the request is sent, a success refetches, a failure alerts "Failed", and `deleting` ends cleared (Dashboard5.jsx:43 is the same handler) |
| Dashboard2.Capitalize | admin-panel/src/pages/Dashboard2.jsx:77 | the first character is upper-cased and the rest kept |
| Dashboard2.StatusBadge | admin-panel/src/pages/Dashboard2.jsx:68-80 | the badge label is the status name with its first letter capitalised |
| Dashboard2.BadgeLabels | admin-panel/src/pages/Dashboard2.jsx:77 | the labels read "Available", "Taken" and "Expired" |
| Dashboard2.BadgesDistinct | admin-panel/src/pages/Dashboard2.jsx:68-80 | different statuses get different icons, styles and labels |
| Dashboard2.FailureAlert | admin-panel/src/pages/Dashboard2.jsx:47 | the server message after "Failed to delete: ", or "Error" when it is absent or empty |
| Dashboard2.HandleDelete | admin-panel/src/pages/Dashboard2.jsx:36-51 | a declined confirm sends nothing; a success drops that id from the list and one from the total only; a failure keeps both and alerts with the server message; `deleteLoading` ends cleared |
| Dashboard3.FilteredFoods | admin-panel/src/pages/Dashboard3.jsx:67-73 | a food is listed exactly when it is on the tab and the lowercased query occurs in its title, location or poster name, each on its own |
| Dashboard3.FieldHitIsConcatenatedHit | admin-panel/src/pages/Dashboard3.jsx:67-73 | a per-field match is also a match of the concatenated fields |
| Dashboard3.FilteredWithinRows | admin-panel/src/pages/Dashboard3.jsx:67-73 | every food this page lists is listed by the first page for the same tab and search |
| Dashboard3.SpanningQueryMissed | admin-panel/src/pages/Dashboard3.jsx:67-73 | a query spanning title and location is found by the first page only, so the containment is strict |
| Dashboard3.RecentClaims | admin-panel/src/pages/Dashboard3.jsx:75 | the first five taken foods in fetched order |
| Dashboard3.TopLocations | admin-panel/src/pages/Dashboard3.jsx:78-82 | a ranking of at most five distinct locations with true counts, largest first, omitting none that outranks the last kept |
| Dashboard3.HandleDelete | admin-panel/src/pages/Dashboard3.jsx:38-50 | a declined confirm sends nothing; a success drops that id from the list and one from the total only; a failure keeps both and alerts "Failed to delete"; `deleteLoading` ends cleared |
| Dashboard3.StaleTotalOverstatesRate | admin-panel/src/pages/Dashboard3.jsx:44 | from consistent stats (2, 0, 2, 0), the local update gives inconsistent stats and a rescue rate of 200 |
| Dashboard3.DecrementTotalMissesNextPoll | admin-panel/src/pages/Dashboard3.jsx:44 | the local update never equals the stats the server reports after that deletion |
| Dashboard3.RecountAfterDelete | admin-panel/src/pages/Dashboard3.jsx:44 | the corrected update lowers the total and the deleted status's count by one and keeps the other counts; consistent stats stay consistent when the deleted status's count was positive |
| Dashboard3.RecountMatchesNextPoll | admin-panel/src/pages/Dashboard3.jsx:44 | the stats before the delete are consistent and count the deleted row under its status; the corrected update equals what the next poll reports, which is consistent, with the rate within 0..100 |
| Dashboard4.Filtered | admin-panel/src/pages/Dashboard4.jsx:39-43 | a food is listed exactly when it is on the tab and the lowercased query occurs in its title or location |
| Dashboard4.FilteredWithinFilteredFoods | admin-panel/src/pages/Dashboard4.jsx:39-43 | every food this page lists is listed by the third page for the same tab and query |
| Dashboard4.PosterNameNotSearched | admin-panel/src/pages/Dashboard4.jsx:41 | a query found only in the poster's name is found by the third page and not here, so the containment is strict |
| Dashboard4.RecentClaims | admin-panel/src/pages/Dashboard4.jsx:45 | the first four taken foods in fetched order |
| Dashboard4.TopLocs | admin-panel/src/pages/Dashboard4.jsx:47-48 | a ranking of at most four distinct locations with true counts, largest first, omitting none that outranks the last kept |
| Dashboard4.HandleDelete | admin-panel/src/pages/Dashboard4.jsx:27-33 | a declined confirm sends nothing; a success drops that id from the list and refetches, with the stats untouched; a failure alerts "Failed to delete"; `deleteLoading` ends cleared |
| Dashboard5.ExpiredOnlyUnderAll | admin-panel/src/pages/Dashboard5.jsx:189 | with the three tabs offered, an expired food is listed only under `all` |
| Dashboard5.Claims | admin-panel/src/pages/Dashboard5.jsx:49 | the first four taken foods in fetched order |
| Dashboard5.Locs | admin-panel/src/pages/Dashboard5.jsx:51 | a ranking of at most four distinct locations with true counts, largest first, omitting none that outranks the last kept |

## Left out

- Concurrency: `claim` reads the row and then writes it. Two concurrent claims can both pass the check. The model runs requests one at a time, so it only shows the single-request guard (`ClaimTwice`).
- DashboardCommon.RescueRate: it rounds the exact ratio half up, so floating point is not modelled. `Math.round(taken / total * 100)` rounds a binary float, and near a .5 boundary it can round the other way (29/200 gives 14).
- DashboardCommon.Lower: it maps ASCII letters only, while `toLowerCase` is Unicode case mapping.
- DashboardCommon.CountLocations: the accumulator has no inherited keys, as `Object.create(null)` or a `Map` would give. The pages start from `{}`, whose `Object.prototype` names behave otherwise (see Findings). What the page's sort and bar widths then do with a string count (a NaN comparison) is not modelled.
- DashboardCommon.RankLocations: the order of locations with equal counts is not stated. `Object.entries` puts integer-like keys first and keeps insertion order for the rest.
- FoodService.SortNewest: the order of rows with equal `created_at` is left to the database and is not stated.
- Password hashing: bcrypt salting and `Hash::check` are abstracted. A function `hash` is fixed per store, and a check is `hash(password) == stored`.
- Token minting: the random token secret and the `plainTextToken` string are not modelled. A token is known by its id, drawn from a counter.
- Clock: `now()` and the auto-increment id are parameters or counters. `Date.now()` and date parsing in the dashboards are replaced by integer milliseconds.
- File storage: the uploaded blob, `Storage::delete` and the `asset()` URL builder are not modelled. `asset()` is an uninterpreted function, and the deleted blob is not tracked. The trailing-slash behaviour of `asset('storage/')` is library-defined.
- Image validation: MIME detection is reduced to the extension, with the size in kilobytes.
- AuthService.RegisterErrors: email syntax is reduced to "an `@` with text on both sides", and uniqueness compares strings exactly. The validator's full address grammar is not modelled.
- AuthService.RegisterErrors, AuthService.FindByEmail, AuthService.Authenticate, FoodService.WithStatus, FoodService.Index and FoodService.IndexUnknownStatusIsEmpty: `where('email', …)`, `where('status', …)` and the `unique` rule compare strings exactly. The database collation, which by default ignores letter case, is not modelled.
- Request middleware: request fields are taken as the controller receives them. Laravel's `TrimStrings` and `ConvertEmptyStringsToNull` run before that and are not modelled, so `Validation.Required`, `Validation.RequiredAtMost` and `FoodService.FoodTable.Store` see the strings as given to them.
- User deletion: no endpoint deletes users. The referential actions are stated as the function `FoodRecord.OnUserDeleted` only.
- Response shaping: the poster and claimer names attached to listings are not modelled, nor the password being hidden from JSON. `app/Models/User.php` and `app/Models/Food.php` are not part of this model, and the page's poster name is an optional field of the listed food.
- Routing and authentication: `routes/api.php` is not part of this model. Every operation except register and login takes an authenticated caller, as a token or a `User` parameter.
- PHP comparison semantics: ids are integers, and the owner check is integer equality.
- Polling and async: the five-second refresh, `Promise.all` and overlapping requests are not modelled. A fetch replaces stats and foods with given values, and a delete takes the server's outcome as a parameter.
- Rendering: markup, styles, icons beyond the status badge, the SVG ring, the sidebar and the rendered strings of the time buckets are not modelled.
- Login pages: `admin-panel/src/pages/Login.jsx` and `Login3.jsx` are network calls and storage writes around one role check. They are not part of this model.

## Findings

| source | as written | input that shows it | evidently intended | confidence | as-written member | corrected member |
|---|---|---|---|---|---|---|
| admin-panel/src/pages/Dashboard3.jsx:44 | after a successful delete the page lowers `total_foods` by one and leaves `available`, `taken` and `expired` as they were | stats (2, 0, 2, 0), delete a taken food: total 1, taken 2, rescue rate 200 until the next poll | the deleted food's status count drops with the total, as the server's next `stats` report does | medium, not executed | Dashboard3.StaleTotalOverstatesRate | Dashboard3.RecountMatchesNextPoll |
| admin-panel/src/pages/Dashboard.jsx:65 | the location histogram is built on `{}`: each food reads `a[loc]`, falls back to 0 when that is falsy, and stores the value plus 1; so a location naming an `Object.prototype` property reads the inherited value (the same reduce is Dashboard3.jsx:78-81, Dashboard4.jsx:47 and Dashboard5.jsx:51) | a food at location `__proto__` is not counted at all; two foods at `constructor` give the count "function Object() { [native code] }11" | every location is counted from 0, as on an object without a prototype | medium, not executed | DashboardCommon.ProtoLocationDropped | DashboardCommon.TallyIsHistogram |
