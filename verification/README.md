# A Dafny model of the platform's services

The platform is a set of NestJS services over Prisma tables and Redis keys. This project models the
parts of them that hold real algorithms or state machines, and proves what they promise.

| file | what it models |
|---|---|
| `Saga.dfy` | the saga orchestrator: a persisted step machine with reverse-order compensation, stored under keys with a lifetime |
| `ParentChains.dfy`, `Forest.dfy` | chains of parent links that may end or run into a cycle, and depth-first walks over tables with parent links |
| `CategoryForest.dfy` | the two-pass, in-place category forest builder over shared node objects |
| `Slugs.dfy`, `Decimal.dfy` | `slugify` and the unbounded search for a free slug |
| `CityHierarchy.dfy` | the recursive descent over active children, the upward walk, and the closure every permission decision uses |
| `Permissions.dfy` | permission decisions, their positive-only cache, the permission listing, and the three city rights |
| `ListingTypes.dfy`, `ListingQuery.dfy` | the compiler from listing filters to where-trees, and paging |
| `ListingModeration.dfy` | who may change which review column or image, and which states a listing passes through |
| `ListingCities.dfy` | reconciliation of a listing's city rows and the primary city column |
| `AuthSessions.dfy` | one refresh token register per user and the session table, changed by seven calls |
| `DestinationOne.dfy` | the Destination One client: category slugs of an item, the page loop, gathering over types |
| `CategoryImport.dfy`, `ListingImport.dfy` | category and listing sync in the core service, and the item loop of the integration service |
| `Integration.dfy` | one whole run of the integration: fetch, category facets, items |
| `Alerts.dfy` | alert rules with a cooldown, the alert history and map, resolution |
| `ErrorHistory.dfy`, `Grouping.dfy`, `Sorting.dfy` | the bounded error history, its metrics and hourly trends |
| `Common.dfy`, `Arithmetic.dfy` | options, results, permutations, products and quotients |

Tables are finite maps or lists of rows, Redis is a map with expiry times, and each service call is
one step. A remote call is an oracle that answers or fails: its answers, the clock, generated ids and
tokens are parameters. `fold` is the lower-casing of characters outside ASCII; nothing is assumed
about it. Services that update fields are classes whose methods state their whole new state through a
function of the old one. Each such function is then described once more from the inputs of the call
alone (the lemmas named `...Means`, `...Is`, `...Stores` or `...Picks`), and what the code promises over
many calls is proved as statements over every run.

`dafny verify dfyconfig.toml` checks the whole project.

## Where the code does something other than its promise

Each of these is proved, as an exact condition or with a concrete input.

- A saga whose last step is done and that is then asked for compensations is COMPLETED although a step
  is COMPENSATING (`Saga.CompensateAfterCompletion`); `Saga.CompletedIffAllSteps` says exactly when
  the claim holds. `compensate` throws after more executes than steps (`Saga.OverrunThrows`, and exactly
  when in `Saga.CompensateThrowsIff`).
- The comment on the page loop expects an interface without paging support; without an overall count
  the running count replaces it, and the loop stops after the first page
  (`DestinationOne.SecondPageLost`); `DestinationOne.PaginationCompleteIff` says exactly when nothing
  is lost.
- For users with a SUPER_ADMIN assignment the permission decision applies the city scope and accepts
  unknown pairs, the listing does neither (`Permissions.SuperAdminDisagrees`, and exactly when in
  `Permissions.DecisionAgreesWithListing`).
- Cache keys join names with colons, so a cached `true` can answer another question wrongly
  (`Permissions.ColonsCollide`). Asking a question never misleads a later one if and only if it has no
  city and no colon in a name (`Permissions.NeverMisleadsIff`): every question with a city shares its
  key with one without.
- Hero images and media files of an approved listing can be added by any signed-in user and leave the
  approval alone (`ListingModeration.ApprovedWithUnseenImage`); `ListingModeration.ReviewedInFullIff`
  says exactly when an approved listing is reviewed with its images.
- A request that marks a later city as primary and says nothing about the first flags two rows, and one
  that only unmarks the first flags none (`ListingCities.TwoRowsFlagged`, `ListingCities.NoRowFlagged`,
  and exactly when in `ListingCities.FlagsMatchIff`).
- An archived listing that its owner resubmits is PENDING and still flagged as archived
  (`ListingModeration.ArchivedYetPending`); `ListingModeration.FlagAgreesIff` says exactly when flag
  and status agree.
- An import whose payload is rejected half-way keeps the writes before: a category named twice costs the
  listing its links (`ListingImport.LinksStripped`; the integration service never sends one), an interval
  without a proper date all its intervals (`ListingImport.IntervalsLost`). `ListingImport.UpdateFailsIff`
  says exactly when and what, and `ListingImport.FailureRepeats` that sending it again does not help.
- The importer does not search for a free slug: of two new items with the same title only the first gets
  a listing (`ListingImport.SecondOfSameSlugLost`); `ListingImport.LandsIff` says exactly which items of a
  run land.
- With a window of zero, or with none, metrics cover the whole history while trends do not
  (`ErrorHistory.ZeroWindowDiffers`, and exactly when in `ErrorHistory.SameWindowIff`).

## Model

| member | source | states |
|---|---|---|
| Saga.SagaOrchestrator.CreateSaga | libs/saga/src/saga-orchestrator.service.ts:14-34 | stores a fresh saga, all steps PENDING, under its id for the lifetime, and changes no other entry |
| Saga.NewSagaIs | libs/saga/src/saga-orchestrator.service.ts:20-27 | the fresh saga: name, kind and steps as given, all PENDING, counter at zero |
| Saga.SagaOrchestrator.ExecuteStep | libs/saga/src/saga-orchestrator.service.ts:39-73 | rejects a missing or expired saga; otherwise the current step, if there is one, completes, the counter moves by one even past the end, and the saga is COMPLETED once it has reached it |
| Saga.SagaOrchestrator.FailStep | libs/saga/src/saga-orchestrator.service.ts:78-96 | the current step, if any, becomes FAILED with the error, the saga COMPENSATING |
| Saga.CompensateSteps | libs/saga/src/saga-orchestrator.service.ts:101-122 | the downward loop returns the picked steps in its order and marks exactly those |
| Saga.SagaOrchestrator.Compensate | libs/saga/src/saga-orchestrator.service.ts:101-122 | missing saga and overrun counter are errors that change nothing; otherwise the stored saga and the returned list are those of the loop |
| Saga.SagaOrchestrator.MarkCompensated | libs/saga/src/saga-orchestrator.service.ts:127-144 | exactly the COMPENSATING steps become COMPENSATED |
| Saga.PickedExactly | libs/saga/src/saga-orchestrator.service.ts:108-116 | the picked indices are exactly the completed steps with a compensation below the counter, strictly decreasing |
| Saga.ExecuteMeans | libs/saga/src/saga-orchestrator.service.ts:45-72 | what one execute does to any saga: the step at the counter is COMPLETED with its result, the others are as before, the counter moves by one, and status and completion time change exactly when no step is left |
| Saga.FailMeans | libs/saga/src/saga-orchestrator.service.ts:84-91 | what one failure does: the step at the counter is FAILED with its error and the saga COMPENSATING, all else as before |
| Saga.CompensateMeans | libs/saga/src/saga-orchestrator.service.ts:107-121 | which steps are handed out, from the statuses before the call: each completed step with a compensation below the counter, highest first, as it is stored then; no other step changes |
| Saga.MarkMeans | libs/saga/src/saga-orchestrator.service.ts:133-141 | the compensating steps and the saga become COMPENSATED, all else as before |
| Saga.FoundForAnHour | libs/saga/src/saga-orchestrator.service.ts:30-31 | what is saved is found for 3600 seconds and no longer, and hides no other saga |
| Saga.RollbackRestores | libs/saga/src/saga-orchestrator.service.ts:39-122 | if each executed step can be undone, executing any number of steps, failing, and applying the returned list in order gives back the starting world |
| Saga.StatusAfterRollback | libs/saga/src/saga-orchestrator.service.ts:39-144 | afterwards exactly the executed steps with a compensation are COMPENSATED, the failed step is FAILED, later ones PENDING |
| Saga.IssuedOnce | libs/saga/src/saga-orchestrator.service.ts:101-144 | in every sequence of operations, legal or not, each step's compensation is issued at most once |
| Saga.IssuedStayIssued | libs/saga/src/saga-orchestrator.service.ts:39-144 | an issued step stays below the counter and is COMPENSATING or COMPENSATED ever after |
| Saga.CounterNeverDecreases | libs/saga/src/saga-orchestrator.service.ts:39-144 | `currentStep` never goes back in any run |
| Saga.GuardedRun | libs/saga/src/saga-orchestrator.service.ts:39-144 | with execute and fail only while PENDING: steps above the counter are PENDING, those below are COMPLETED unless issued, and the saga status follows the counter |
| Saga.BelowCompletedIff | libs/saga/src/saga-orchestrator.service.ts:39-144 | in such runs the steps below the counter are all COMPLETED if and only if no compensation was issued |
| Saga.CompletedIffAllSteps | libs/saga/src/saga-orchestrator.service.ts:39-144 | the exact condition under which "COMPLETED iff all steps are" holds in such runs |
| Saga.CompensateAfterCompletion | libs/saga/src/saga-orchestrator.service.ts:101-122 | a run on which that claim fails |
| Saga.CompensateThrowsIff | libs/saga/src/saga-orchestrator.service.ts:108-111 | over every run, reading past the steps happens if and only if execute was called more often than there are steps |
| Saga.OverrunThrows | libs/saga/src/saga-orchestrator.service.ts:108-111 | one execute too many on a saga of one step, after which `compensate` throws |
| CategoryForest.CreateNodes | apps/core/src/modules/categories/categories.service.ts:65-75 | one fresh node per id, with an empty child list |
| CategoryForest.PlaceNode | apps/core/src/modules/categories/categories.service.ts:77-90 | one category goes into its parent's list or the roots, by the code's three cases, and every other list is kept |
| CategoryForest.LinkNodes | apps/core/src/modules/categories/categories.service.ts:77-90 | after the second pass the heap holds exactly the child lists of the whole table, cycles included |
| CategoryForest.RemoveEmptyChildren | apps/core/src/modules/categories/categories.service.ts:92-104 | terminates although cycles may exist elsewhere in the heap, deletes exactly the empty child lists below the node, touches nothing else |
| CategoryForest.BuildCategoryHierarchy | apps/core/src/modules/categories/categories.service.ts:65-108 | the object graph handed back shows exactly the specified forest |
| CategoryForest.ShownNode | apps/core/src/modules/categories/categories.service.ts:69-104 | what showing a tree means for the object handed back: its category, its children in order, and no `children` on a leaf |
| CategoryForest.ForestContains | apps/core/src/modules/categories/categories.service.ts:77-90 | a category is in the forest if and only if its parent chain does not run into a cycle |
| CategoryForest.ForestOnce | apps/core/src/modules/categories/categories.service.ts:77-90 | no category appears twice |
| CategoryForest.ForestConserves | apps/core/src/modules/categories/categories.service.ts:65-108 | the flattened forest is a permutation of the input if and only if there is no cycle |
| CategoryForest.ForestFlattens | apps/core/src/modules/categories/categories.service.ts:92-107 | the nested trees flatten to the depth-first walk, and no empty child list remains |
| CategoryForest.ForestNests | apps/core/src/modules/categories/categories.service.ts:81-107 | below every node of the returned trees stand exactly the categories whose `parentId` is its nonempty id, in list order; a node without any has no `children` |
| CategoryForest.ForestTops | apps/core/src/modules/categories/categories.service.ts:81-107 | at the top stand exactly the categories whose `parentId` is missing, empty or not listed, in list order |
| CategoryForest.LinksAreParents | apps/core/src/modules/categories/categories.service.ts:81-84 | the links whose cycles decide what the forest holds lead from a category to the listed, nonempty `parentId` it names |
| CategoryForest.RootsInOrder | apps/core/src/modules/categories/categories.service.ts:77-90 | the roots are distinct and keep input order |
| Forest.KidsInOrder | apps/core/src/modules/categories/categories.service.ts:77-90 | the children of every node are distinct and keep input order |
| CityHierarchy.ValidTableMeans | libs/prisma/src/schemas/city/schema.prisma:14-36 | given the primary key, the absence of parent cycles is all that the model asks of a city table |
| CityHierarchy.ChildCollector.GetChildren | libs/rbac/src/city-hierarchy.service.ts:24-47 | the recursive closure appends, in place, exactly the walk beneath its argument |
| CityHierarchy.GetChildCities | libs/rbac/src/city-hierarchy.service.ts:23-52 | returns the descendants, or the direct active children when not recursive |
| CityHierarchy.DescendantsExactly | libs/rbac/src/city-hierarchy.service.ts:23-52 | they are exactly the cities reached by a nonempty chain of child links whose every child is active |
| CityHierarchy.DescendantsDistinct | libs/rbac/src/city-hierarchy.service.ts:23-52 | without duplicates |
| CityHierarchy.DescendantsDepthFirst | libs/rbac/src/city-hierarchy.service.ts:23-52 | in depth-first preorder: each city's descendants follow it as one block |
| CityHierarchy.DescendantsByChild | libs/rbac/src/city-hierarchy.service.ts:24-47 | they are the direct children one after the other, each followed by its own descendants |
| CityHierarchy.DirectChildren | libs/rbac/src/city-hierarchy.service.ts:28-35 | the direct children are the active cities with that `parentCityId`, in table order |
| CityHierarchy.GetCityPath | libs/rbac/src/city-hierarchy.service.ts:90-120 | the upward loop terminates and returns the chain of listed ancestors, topmost first |
| CityHierarchy.PathIsChain | libs/rbac/src/city-hierarchy.service.ts:90-120 | on every acyclic table the path of a listed city ends at it, climbs by `parentCityId` until the parent is missing, empty or not listed, and repeats nothing; any other city has none |
| CityHierarchy.WalksAreAdjoint | libs/rbac/src/city-hierarchy.service.ts:23-120 | d is found below c if and only if c is on d's path and every city after c is active |
| CityHierarchy.GetAllManagedCities | libs/rbac/src/city-hierarchy.service.ts:59-73 | the cities given and all their descendants, nothing else |
| CityHierarchy.ManagedIsLeast | libs/rbac/src/city-hierarchy.service.ts:59-73 | that is the least set above the input closed under active children |
| CityHierarchy.ManagedIsClosure | libs/rbac/src/city-hierarchy.service.ts:59-73 | extensive, monotone, idempotent |
| CityHierarchy.GetHierarchicalCities | libs/rbac/src/city-hierarchy.service.ts:128-142 | exactly the city, its ancestors and its descendants |
| Permissions.PermissionService.HasPermission | libs/rbac/src/permission.service.ts:29-104 | answers a live cached `true` or the decision of the tables, and writes the cache only for a computed `true` of a user with assignments |
| Permissions.DecideMeans | libs/rbac/src/permission.service.ts:43-104 | the decision from the rows: without an active assignment the citizen's permissions decide; otherwise some active assignment covers the city, if one is given, and some has a role with the pair or is SUPER_ADMIN |
| Permissions.CacheMeans | libs/rbac/src/permission.service.ts:35-77 | a live entry answers `true` and is not renewed; without one the decision answers, and only a `true` of a user with an active assignment is stored, for 300 seconds |
| Permissions.KeyIs | libs/rbac/src/permission.service.ts:35 | the key joins user, resource, action and, unless absent or empty, city by colons behind its prefix |
| Permissions.KeyInjective | libs/rbac/src/permission.service.ts:35-36 | with colon-free names two questions share a cache key if and only if they are the same |
| Permissions.KeyIsOwnIff | libs/rbac/src/permission.service.ts:35-36 | a question has its cache key to itself, among all questions, if and only if it has no city and no colon in a name |
| Permissions.WrongAnswerIff | libs/rbac/src/permission.service.ts:35-77 | on any tables, the answer after one other question is wrong exactly when they share a key and the cached truth of the first is not one of the second |
| Permissions.NeverMisleadsIff | libs/rbac/src/permission.service.ts:29-77 | asking a question never makes a later answer wrong, whatever the tables, if and only if it has no city and no colon in a name |
| Permissions.ColonsCollide | libs/rbac/src/permission.service.ts:35-36 | two questions and tables on which the second is answered true although it is false |
| Permissions.CacheJustified | libs/rbac/src/permission.service.ts:29-77 | over every run each cache entry was written when some earlier question with its key was computed true, with that moment's expiry |
| Permissions.EventMeans | libs/rbac/src/permission.service.ts:29-77 | the events of such runs: one replaces the tables, one advances the clock, one asks and changes the cache only |
| Permissions.AnswersAreFresh | libs/rbac/src/permission.service.ts:29-77 | over every run of table changes, ticks and colon-free questions, a `false` is the present truth and a `true` was the truth less than 300 seconds ago |
| Permissions.GetUserEffectivePermissions | libs/rbac/src/user-context.service.ts:59-125 | the list holds effective permissions only, misses no effective name, and for ordinary users repeats none |
| Permissions.MergeRoles | libs/rbac/src/user-context.service.ts:97-117 | merging over the roles loses no granted name, adds none, and keeps one permission per name |
| Permissions.EffectiveMeans | libs/rbac/src/user-context.service.ts:59-125 | what the list is drawn from, from the rows: the citizen's permissions, all there are for a SUPER_ADMIN, or those of the roles when the city is covered |
| Permissions.ListingIsExact | libs/rbac/src/user-context.service.ts:59-125 | with colon-free names, a pair is in such a list if and only if it is effective |
| Permissions.DecisionAgreesWithListing | libs/rbac/src/permission.service.ts:29-104 | without a SUPER_ADMIN assignment decision and listing agree on every question; with one, exactly when scope and existence of the pair coincide |
| Permissions.SuperAdminDisagrees | libs/rbac/src/user-context.service.ts:76-87 | tables on which they differ both ways for a super admin |
| Permissions.CanManageCityAdmins | libs/rbac/src/permission.service.ts:145-167 | true exactly for super admins and admins with the flag at the city or an active ancestor |
| Permissions.CanManageCity | libs/rbac/src/user-context.service.ts:168-192 | true exactly for super admins and city admins at the city or an active ancestor |
| Permissions.CanAccessCity | libs/rbac/src/user-context.service.ts:132-162 | as managing, and for everyone without a city admin assignment |
| Permissions.RightsMean | libs/rbac/src/permission.service.ts:145-167 | the three rights from the active assignments of the user: role, flag, and the assigned city being the city or one it descends from |
| Permissions.RightsAreOrdered | libs/rbac/src/permission.service.ts:145-167 | managing admins implies managing implies access, for every user and city |
| Permissions.RightsReachDown | libs/rbac/src/user-context.service.ts:132-192 | each right over a city extends to every city the descent finds below it |
| Slugs.SlugifyJoinsWords | apps/core/src/modules/listings/listings.service.ts:72-78 | the chain of string operations yields the words of the lower-cased text joined by single dashes |
| Slugs.WordsSplit | apps/core/src/modules/listings/listings.service.ts:72-78 | any character but [a-z0-9] separates words; with the next row this determines the words of every text |
| Slugs.WholeWord | apps/core/src/modules/listings/listings.service.ts:72-78 | a nonempty run of [a-z0-9] is its only word |
| Slugs.WordCharsAre | apps/core/src/modules/listings/listings.service.ts:76 | the 36 characters that make words |
| Slugs.LowerCharsAre | apps/core/src/modules/listings/listings.service.ts:74 | the 26 capitals of ASCII become small, other ASCII stays |
| Slugs.SpacesAre | apps/core/src/modules/listings/listings.service.ts:75 | the characters `trim` takes, as ECMA-262 lists them |
| Slugs.SlugifyIdempotent | apps/core/src/modules/categories/categories.service.ts:20-26 | slugifying twice changes nothing |
| Slugs.SlugsAreFixedPoints | apps/core/src/modules/listings/listings.service.ts:72-78 | a string is left alone if and only if it is empty or dash-separated nonempty runs of [a-z0-9] |
| Slugs.CandidatesDiffer | apps/core/src/modules/listings/listings.service.ts:80-97 | the candidates base, base-1, base-2, ... are pairwise distinct |
| Slugs.CandidatesAre | apps/core/src/modules/listings/listings.service.ts:80-94 | the candidates by name: the base, then base-n in decimal |
| Decimal.ParsePrint | apps/core/src/modules/listings/listings.service.ts:90-94 | printing the counter in decimal can be undone |
| Decimal.NoLeadingZero | apps/core/src/modules/listings/listings.service.ts:90-94 | and no numeral but zero's starts with a zero |
| Slugs.SearchIsBounded | apps/core/src/modules/listings/listings.service.ts:80-97 | at most as many candidates are taken as there are rows |
| Slugs.FoundMeans | apps/core/src/modules/listings/listings.service.ts:80-97 | the search ends on the base or a numbered base that no other row owns, and the base and every smaller number are owned by other rows |
| Slugs.EnsureUniqueSlug | apps/core/src/modules/categories/categories.service.ts:43-60 | the unbounded loop ends within rows + 1 lookups on every table, with the first candidate that is free or the caller's own |
| Slugs.SlugColumn.Create | apps/core/src/modules/listings/listings.service.ts:622-650 | creation stores the first free candidate of the title's slug, the slug itself when it is free, and keeps the column unique |
| Slugs.BaseSlugIs | apps/core/src/modules/listings/listings.service.ts:629 | the base is the slug of the title, or of the fallback when nothing is left of the title |
| Slugs.SlugColumn.Update | apps/core/src/modules/listings/listings.service.ts:750-775 | an update stores the first candidate free or its own, changes nothing when that is the slug it has, and keeps the column unique |
| ListingQuery.CompilationPreservesMeaning | apps/core/src/modules/listings/listings.service.ts:1075-1181 | for every filter and row, the compiled where-tree holds if and only if the filter's clauses do |
| ListingQuery.ListsMean | apps/core/src/modules/listings/listings.service.ts:1110-1132 | languages, cities and categories ask for one of the listed values, and an absent or empty list asks nothing |
| ListingQuery.UpcomingMeans | apps/core/src/modules/listings/listings.service.ts:1143-1174 | the upcoming arm, for every window and interval: an event start within the bounds given, or an interval that ends no earlier and starts no later than they say |
| ListingQuery.TrimTrims | apps/core/src/modules/listings/listings.service.ts:1081 | the search term is the text without the white space at its ends |
| ListingQuery.TrimmedOnce | apps/core/src/modules/listings/listings.service.ts:1081 | and there is only one such term |
| ListingQuery.ContainsMeans | apps/core/src/modules/listings/listings.service.ts:1082-1086 | a text contains a term if the lower-cased term stands somewhere in the lower-cased text |
| ListingQuery.ArmIsOverlap | apps/core/src/modules/listings/listings.service.ts:1143-1174 | for an interval and a window that do not run backwards the interval arm is exactly overlap |
| ListingQuery.UpcomingIsOverlap | apps/core/src/modules/listings/listings.service.ts:1143-1174 | so the upcoming clause selects event starts in the window and overlapping intervals |
| ListingQuery.PagesCoverSelection | apps/core/src/modules/listings/listings.service.ts:1183-1237 | pages 1 to totalPages concatenate to the whole filtered list, in order |
| ListingQuery.PagesAreNeeded | apps/core/src/modules/listings/listings.service.ts:1183-1237 | a page is nonempty if and only if something is selected and its number is at most totalPages |
| ListingQuery.PagesShowMatches | apps/core/src/modules/listings/listings.service.ts:1075-1237 | all pages together show each matching row as often as the table holds it, and no other |
| ListingQuery.AnswerShows | apps/core/src/modules/listings/listings.service.ts:1183-1237 | one answer: the matching rows in table order, from the first of the page on, with page, size, total and the least number of pages that holds them |
| ListingQuery.PagingDefaults | apps/core/src/modules/listings/listings.service.ts:1184-1186 | page 1 and 20 rows unless a positive number is asked for, and never more than 100 rows |
| ListingModeration.ListingsService.CreateListing | apps/core/src/modules/listings/listings.service.ts:622-748 | a new listing is PENDING for everyone; only an admin's publication date is taken |
| ListingModeration.ListingsService.UpdateListing | apps/core/src/modules/listings/listings.service.ts:750-1035 | refuses strangers and an owner's admin fields without change; an owner's edit resets the review, an admin's sets what it names |
| ListingModeration.ListingsService.ModerateListing | apps/core/src/modules/listings/listings.service.ts:1239-1298 | sets both statuses, the publication date on first approval, and the archive flag |
| ListingModeration.ListingsService.SubmitListingForReview | apps/core/src/modules/listings/listings.service.ts:1300-1327 | only the creator may resubmit; the review columns are reset |
| ListingModeration.ListingsService.UploadHeroImage | apps/core/src/modules/listings/listing.controller.ts:824-877 | any signed-in user replaces the hero image and nothing else; without a file, a listing or a stored file nothing changes |
| ListingModeration.ListingsService.UploadMedia | apps/core/src/modules/listings/listing.controller.ts:932-1023 | one media row per file stored before the first failure, at most ten files, and nothing else |
| ListingModeration.ListingsService.DeleteMedia | apps/core/src/modules/listings/listings.service.ts:431-470 | admins only; removes exactly the named row of this listing |
| ListingModeration.UpdateMeans | apps/core/src/modules/listings/listings.service.ts:764-1035 | who may update, from creator and request fields, and what each field is afterwards for admins and for the creator |
| ListingModeration.ModerateMeans | apps/core/src/modules/listings/listings.service.ts:1255-1298 | for each of the five decisions: both statuses, publication date, archive flag, reviewer and notes; content, creator and images stay |
| ListingModeration.SubmitMeans | apps/core/src/modules/listings/listings.service.ts:1300-1327 | the creator's resubmission puts the listing back in review and changes nothing else; anyone else's changes nothing |
| ListingModeration.ImagesMean | apps/core/src/modules/listings/listings.service.ts:405-470 | an upload adds its image, a deletion by an admin takes the named row if the listing has it, and nothing else changes |
| ListingModeration.WithoutPicks | apps/core/src/modules/listings/listings.service.ts:431-470 | the rows left are those with other ids, all of them and in order |
| ListingModeration.StoredMeans | apps/core/src/modules/listings/listing.controller.ts:932-1023 | the files stored are those before the first that fails, or all |
| ListingModeration.ApprovedIsReviewed | apps/core/src/modules/listings/listings.service.ts:622-1363 | in every run of updates, moderations, resubmissions and image uploads, APPROVED implies an admin action set it and since then only admins changed anything but the images |
| ListingModeration.ReviewedInFullIff | apps/core/src/modules/listings/listings.service.ts:405-428 | images included, everything since the approval was done by admins if and only if no one else uploaded an image since an admin last set the status |
| ListingModeration.ApprovedWithUnseenImage | apps/core/src/modules/listings/listing.controller.ts:824-877 | a run that ends APPROVED with an image no admin has seen |
| ListingModeration.OwnerEditUnapproves | apps/core/src/modules/listings/listings.service.ts:902-918 | whatever anyone but an admin does successfully sends the listing back to PENDING, unless it is an image upload, which leaves all but the images alone; publication date and archive flag stay |
| ListingModeration.RegularIff | apps/core/src/modules/listings/listings.service.ts:1239-1298 | a moderation lands in one of the five regular pairs if and only if its publish status is the default |
| ListingModeration.RegularRun | apps/core/src/modules/listings/listings.service.ts:1239-1363 | regular runs stay in the five pairs; the publication date is the creation's or the first approval's and never moves; an approved listing has one |
| ListingModeration.FlagAgreesStep | apps/core/src/modules/listings/listings.service.ts:902-1363 | a regular event parts the archive flag from the ARCHIVED status exactly when it takes that status from an archived listing, and joins them again exactly when it approves or archives |
| ListingModeration.FlagAgreesIff | apps/core/src/modules/listings/listings.service.ts:902-1363 | in every regular run flag and status agree if and only if no owner edit or other moderation hit the archived listing since the flag was last set |
| ListingModeration.ArchivedYetPending | apps/core/src/modules/listings/listings.service.ts:1300-1327 | a regular run that ends PENDING and archived |
| ListingCities.SyncListingCities | apps/core/src/modules/listings/listings.service.ts:292-340 | leaves exactly the requested rows, with the requested flags and order, and other listings alone |
| ListingCities.ReconciledMeans | apps/core/src/modules/listings/listings.service.ts:292-340 | each requested city has its row with the flag and order given, or those of its place, under its old id, the id it brings or a new one; there is no other row of the listing, and other listings keep theirs |
| ListingCities.ReconciledUnique | apps/core/src/modules/listings/listings.service.ts:292-340 | that requirement determines the table |
| ListingCities.ReconcileIdempotent | apps/core/src/modules/listings/listings.service.ts:292-340 | the same request again changes nothing |
| ListingCities.SurvivorsKeepIds | apps/core/src/modules/listings/listings.service.ts:303-336 | rows that existed and are still requested keep their ids |
| ListingCities.ListingStore.CreateListing | apps/core/src/modules/listings/listings.service.ts:640-745 | the rows are those of reconciling an empty set with the request, ids in it ignored, and the column names the primary city |
| ListingCities.CreatedMeans | apps/core/src/modules/listings/listings.service.ts:640-745 | the rows of a new listing are those requested, under ids that do not come from the request |
| ListingCities.PrimaryMeans | apps/core/src/modules/listings/listings.service.ts:640-642 | the primary city is the first marked one, else the first, else none |
| ListingCities.ListingStore.UpdateListing | apps/core/src/modules/listings/listings.service.ts:1007-1019 | column and rows change together, or not at all when the listing is missing |
| ListingCities.ColumnMeans | apps/core/src/modules/listings/listings.service.ts:1007-1011 | the column stays without cities in the request, is cleared by an empty list, and names the primary city otherwise |
| ListingCities.ListingStore.ImportListing | apps/core/src/modules/core/core.service.ts:380-407 | one primary row for a nonempty city, and column and rows agree exactly then |
| ListingCities.ImportedMeans | apps/core/src/modules/core/core.service.ts:380-407 | the column names the imported city, and a nonempty one gets the one row, first and primary |
| ListingCities.ImportConsistentIff | apps/core/src/modules/core/core.service.ts:380-407 | an import keeps column and rows consistent if and only if it brings a nonempty primary city |
| ListingCities.RunsStayConsistent | apps/core/src/modules/listings/listings.service.ts:640-757 | over all runs of create, update and import the primary city is null iff the listing has no city row, and otherwise names one of them |
| ListingCities.FlagsMatchIff | apps/core/src/modules/listings/listings.service.ts:312-336 | the flagged row is the primary city's, and the only one, exactly under the stated condition on the request |
| ListingCities.TwoRowsFlagged | apps/core/src/modules/listings/listings.service.ts:312-336 | a request after which two rows are flagged as primary |
| ListingCities.NoRowFlagged | apps/core/src/modules/listings/listings.service.ts:312-336 | a request after which none is, although the column names a city |
| AuthSessions.AuthService.DoLogin | apps/auth/src/modules/auth/auth.service.ts:180-409 | every check in the code's order; only a full success stores a token and a session, for 30 or 7 days |
| AuthSessions.LoginAnswers | apps/auth/src/modules/auth/auth.service.ts:180-303 | the answer from the inputs: the first of missing user, inactive user, unverified email address, wrong password and failing backend is the error, and without any of them the login succeeds |
| AuthSessions.LoginStores | apps/auth/src/modules/auth/auth.service.ts:345-360 | something is stored if and only if none of them applies; then token and session of that user, for 2592000 or 604800 seconds by `rememberMe` |
| AuthSessions.AuthService.CreateGuestSession | apps/auth/src/modules/auth/auth.service.ts:795-893 | stores a token and a session for 30 days, or nothing |
| AuthSessions.AuthService.ConvertGuestToRegistered | apps/auth/src/modules/auth/auth.service.ts:899-1020 | stores a token and a session for 7 days, or nothing |
| AuthSessions.GuestStores | apps/auth/src/modules/auth/auth.service.ts:795-1020 | what guest creation and conversion store, for 2592000 and 604800 seconds, and that without a user they store nothing |
| AuthSessions.AuthService.RefreshTokens | apps/auth/src/modules/auth/auth.service.ts:442-555 | succeeds if and only if the presented token is the user's live stored one and the user may go on; every failure is the same error and changes nothing |
| AuthSessions.RefreshStores | apps/auth/src/modules/auth/auth.service.ts:442-555 | something is stored if and only if the presented token is the stored, unexpired, nonempty one of its active user, who is a guest or whose backends answer; lifetime by guest or not |
| AuthSessions.AuthService.DoLogout | apps/auth/src/modules/auth/auth.service.ts:411-440 | the token is gone and every open session of the user is revoked |
| AuthSessions.AuthService.DoRevokeSession | apps/auth/src/modules/auth/auth.service.ts:719-758 | revokes the user's own open session and drops the token for token sessions; otherwise an error and no change |
| AuthSessions.AuthService.RevokeAllSessions | apps/auth/src/modules/auth/auth.service.ts:760-789 | revokes and counts exactly the open sessions |
| AuthSessions.LogoutRevokes | apps/auth/src/modules/auth/auth.service.ts:411-789 | a logout or full revocation takes the user's token, stamps exactly their sessions that were open, and touches no one else |
| AuthSessions.RevokeStamps | apps/auth/src/modules/auth/auth.service.ts:719-758 | a revocation changes something if and only if the session is the user's own and open; it stamps that one, and takes the token exactly for token sessions |
| AuthSessions.OpenAreStamped | apps/auth/src/modules/auth/auth.service.ts:760-789 | the sessions counted as revoked are those that change |
| AuthSessions.RegisterIsLastIssue | apps/auth/src/modules/auth/auth.service.ts:345-555 | over every run the register holds a token if and only if it was the last one issued to the user and nothing ended it since |
| AuthSessions.LoginTokenHadPassword | apps/auth/src/modules/auth/auth.service.ts:279-360 | over every run, a token last issued by a login belongs to an active user with a settled email address who gave the right password |
| AuthSessions.RefreshAcceptsOnlyLastIssue | apps/auth/src/modules/auth/auth.service.ts:442-555 | over every run a refresh is accepted exactly for the last issued, unexpired token with no logout or revocation since |
| AuthSessions.SupersededIsRejected | apps/auth/src/modules/auth/auth.service.ts:442-555 | a superseded token is rejected until it is issued again |
| AuthSessions.TokenImpliesOpenSession | apps/auth/src/modules/auth/auth.service.ts:411-789 | over every run a stored token implies an unrevoked session of its user |
| AuthSessions.OthersUntouched | apps/auth/src/modules/auth/auth.service.ts:345-991 | no event changes another user's token or sessions |
| AuthSessions.RefreshRotates | apps/auth/src/modules/auth/auth.service.ts:519-543 | a failed refresh changes nothing; an accepted one stores the new token for the same user, and if that differs from the presented one, the latter is no longer the user's live token at any time until another event stores it again |
| DestinationOne.CategorySlugs | apps/integration/src/modules/destination-one/destination-one.service.ts:300-324 | the slugs are distinct, the root's first, and exactly the root's and one per category; none for an unknown type |
| DestinationOne.FetchDataPaginatedForType | apps/integration/src/modules/destination-one/destination-one.service.ts:181-238 | requests pages in order up to the first that stops the loop or the thousandth, returns all their items and the last facets, and fails exactly when its last request does |
| DestinationOne.PageSizeIs | apps/integration/src/modules/destination-one/destination-one.service.ts:181-190 | the page size set, or 100 without one or with zero |
| DestinationOne.GoesOnIff | apps/integration/src/modules/destination-one/destination-one.service.ts:225-234 | a request is followed by another if and only if it was answered with items, their count fills the page size and the overall count is not reached |
| DestinationOne.LastFacetsIs | apps/integration/src/modules/destination-one/destination-one.service.ts:220-223 | the facet groups returned are those of the last page that has any |
| DestinationOne.PaginationExact | apps/integration/src/modules/destination-one/destination-one.service.ts:181-238 | against an honest interface with an overall count: the first 1000 pages of the list, in as many requests as needed and at least one |
| DestinationOne.PaginationWithoutTotal | apps/integration/src/modules/destination-one/destination-one.service.ts:223-234 | without an overall count exactly one page |
| DestinationOne.PaginationCompleteIff | apps/integration/src/modules/destination-one/destination-one.service.ts:181-238 | the whole list comes back if and only if it fits 1000 pages, or one page without an overall count |
| DestinationOne.SecondPageLost | apps/integration/src/modules/destination-one/destination-one.service.ts:223-234 | an honest interface over one item more than a page, of which only the page comes back |
| DestinationOne.FirstByIdKeepsFirsts | apps/integration/src/modules/destination-one/destination-one.service.ts:412-421 | deduplication keeps each id once and exactly the first item of each |
| DestinationOne.FirstByIdKeepsOrder | apps/integration/src/modules/destination-one/destination-one.service.ts:412-421 | items of earlier types keep their places |
| DestinationOne.FetchAllTypes | apps/integration/src/modules/destination-one/destination-one.service.ts:411-442 | items deduplicated over all types and the category facets of every type, or nothing when some request fails |
| DestinationOne.FacetsByGroup | apps/integration/src/modules/destination-one/destination-one.service.ts:422-437 | group by group, the facets of the category field in order, labelled with the type asked for, and none of other fields |
| DestinationOne.FacetsMember | apps/integration/src/modules/destination-one/destination-one.service.ts:422-437 | so a facet comes back if and only if some group of the category field holds it |
| DestinationOne.FetchSingle | apps/integration/src/modules/destination-one/destination-one.service.ts:438-463 | without a type filter: the items of one unpaged answer as they are, and its category facets with the type of the first item that carries their value |
| DestinationOne.InferredByGroup | apps/integration/src/modules/destination-one/destination-one.service.ts:443-462 | the same for the unfiltered answer, labelled with the inferred type |
| DestinationOne.InferredFromFirst | apps/integration/src/modules/destination-one/destination-one.service.ts:450-452 | that type is the first carrier's, or `Unknown` when it is empty |
| DestinationOne.InferredUnknown | apps/integration/src/modules/destination-one/destination-one.service.ts:450-452 | and `Unknown` when no item carries the value |
| DestinationOne.WeekdaysExactly | apps/integration/src/modules/destination-one/destination-one.service.ts:250-261 | exactly the seven weekdays pass, as often as named and in their order |
| DestinationOne.IntervalsConvert | apps/integration/src/modules/destination-one/destination-one.service.ts:324-331 | conversion loses and reorders no interval, keeps dates and zone, names the four recurrences, and turns an interval of zero into one |
| CategoryImport.TablesAgree | apps/core/src/modules/core/core.service.ts:427-441 | both services map the six types, and no other, to the same roots and category types |
| CategoryImport.CoreService.SyncCategoriesFromIntegration | apps/core/src/modules/core/core.service.ts:451-579 | the grouped loops upsert exactly the facets' categories and city links; the count it reports as created is the number of city rows gained, none when the tables stay as they are, and created plus updated the number of facets that name a category of a seeded type |
| CategoryImport.FacetStored | apps/core/src/modules/core/core.service.ts:489-567 | for every facet no later one overrides: its category exists with the facet's label, type and root as parent, active, under its old id or a new one, and the city's link shows the label in its old place or the first |
| CategoryImport.OthersKept | apps/core/src/modules/core/core.service.ts:489-567 | categories no facet asks for, their links, and other cities' links stay as they were |
| CategoryImport.ApplyAddsWritten | apps/core/src/modules/core/core.service.ts:512-531 | exactly the written slugs are added, ids are stable and unique, all other rows are untouched |
| CategoryImport.LastWriteWins | apps/core/src/modules/core/core.service.ts:512-567 | the last facet of a slug decides the category's row and the city's label, and the display order stays |
| CategoryImport.SyncAddsExactly | apps/core/src/modules/core/core.service.ts:451-579 | a slug exists afterwards if and only if it did before or some facet asks for it |
| CategoryImport.SyncTwice | apps/core/src/modules/core/core.service.ts:451-579 | repeating a sync leaves both tables as they are |
| CategoryImport.ItemResolvesIff | apps/integration/src/modules/destination-one/destination-one.service.ts:300-324 | after the sync every slug an item is sent with resolves if and only if each of its categories was there or is covered by a facet of its type |
| ListingImport.TransformToListing | apps/integration/src/modules/destination-one/destination-one.service.ts:273-355 | the payload carries the item's id, hash, fallback title slug, coordinates, converted intervals and exactly its category slugs |
| ListingImport.ListingTables.SyncListingFromIntegration | apps/core/src/modules/core/core.service.ts:236-425 | every way a sync can end, rejected values included, with the whole table after it, and one listing per external id kept |
| ListingImport.ListingTables.UpdateListing | apps/core/src/modules/core/core.service.ts:292-358 | three writes in order, links only when some category resolved and intervals only when given; the first that is rejected ends the call, and what was written or deleted before it stays |
| ListingImport.ListingTables.CreateListing | apps/core/src/modules/core/core.service.ts:363-425 | an approved listing with the next id, or nothing when its slug is taken or any value is rejected |
| ListingImport.WriteStores | apps/core/src/modules/core/core.service.ts:292-425 | a sync that writes leaves the listing showing the payload, field by field; an update keeps what the payload does not give, a creation adds an approved listing with slug and city; every other listing is as before |
| ListingImport.ImportsKeepOnePerExternal | apps/core/src/modules/core/core.service.ts:282-425 | over all import runs at most one listing per external source and id |
| ListingImport.UnchangedIffSameHash | apps/core/src/modules/core/core.service.ts:290-361 | skipped if and only if the stored hash is the incoming one, and then nothing changes |
| ListingImport.SecondSyncSkips | apps/core/src/modules/core/core.service.ts:290-361 | after a success the same payload is a skip of the same listing |
| ListingImport.SucceedsIff | apps/core/src/modules/core/core.service.ts:236-425 | a sync succeeds if and only if the stored hash is current, or no value is rejected and its listing exists or its slug is free |
| ListingImport.UpdateFailsIff | apps/core/src/modules/core/core.service.ts:292-358 | an update fails if and only if a category repeats, an interval cannot be stored or a coordinate does not fit; hash and columns stay old, and the lemma says what links and intervals are left in each case |
| ListingImport.CreateFailsIff | apps/core/src/modules/core/core.service.ts:363-425 | a creation fails if and only if its slug is taken, a category repeats, an interval cannot be stored or a coordinate does not fit; the error is one of the reasons that apply, and nothing changes |
| ListingImport.FailureRepeats | apps/core/src/modules/core/core.service.ts:236-425 | a sync that failed fails again on the same payload and changes nothing more |
| ListingImport.IntervalsLost | apps/core/src/modules/core/core.service.ts:315-332 | a listing with an interval and a payload whose interval has no start, which leave it with none |
| ListingImport.SecondOfSameSlugLost | apps/core/src/modules/core/core.service.ts:363-368 | two payloads with one slug on an empty table: the second ends in an error and has no listing |
| ListingImport.LinksStripped | apps/core/src/modules/core/core.service.ts:296-312 | a linked listing and a payload that leave it without links |
| ListingImport.ImportLinksCategories | apps/core/src/modules/core/core.service.ts:267-312 | a writing sync of an item of a seeded type links its listing to exactly the categories its slugs name |
| ListingImport.ImportAgreement | apps/core/src/modules/core/core.service.ts:267-567 | the two services agree: with covering facets synced, every slug resolves and the listing is linked to exactly those categories |
| ListingImport.ListingTables.ProcessItems | apps/integration/src/modules/destination-one/destination-one.service.ts:490-518 | one sync per delivered item in order; the four counters add up to the items processed if and only if no answer came back empty |
| ListingImport.LoggedMeans | apps/integration/src/modules/destination-one/destination-one.service.ts:490-518 | entry by entry, the log has the item, its delivery and the payload of that item; all but a lost request reach the core service |
| ListingImport.TallyMeans | apps/integration/src/modules/destination-one/destination-one.service.ts:490-518 | which counter an item raises: by the answer that came back, as an error when none did or the sync failed, and none on an empty answer |
| ListingImport.ItemsLand | apps/integration/src/modules/destination-one/destination-one.service.ts:412-518 | with every id once, after the run each item whose sync succeeded has its listing with the hash that came with it |
| ListingImport.LandsIff | apps/core/src/modules/core/core.service.ts:236-425 | over every run with each id once, an item succeeds if and only if it was current or its values fit and its listing existed or no listing, old or of the run, had its slug |
| ListingImport.RowStaysInRun | apps/core/src/modules/core/core.service.ts:282-358 | with every id once, what one item left of its listing is what the whole run leaves |
| ListingImport.ItemsStayWritten | apps/core/src/modules/core/core.service.ts:292-425 | so at the end every written item's listing still shows its payload |
| ListingImport.CarriedItemShows | apps/integration/src/modules/destination-one/destination-one.service.ts:273-355 | and with it the item: title, text or else title, id, hash, details, coordinates and converted intervals; a created one is approved, in the run's city, under the slug of its title or id |
| ListingImport.ItemsStayLinked | apps/core/src/modules/core/core.service.ts:267-425 | so at the end every written item of a seeded type is still in exactly the categories its slugs name |
| Integration.CoveredItemImported | apps/integration/src/modules/destination-one/destination-one.service.ts:411-518 | across both services: when the facets arrived, every covered item that lands, by a condition on the payloads and the start, ends showing the item, with all its slugs resolved and exactly their categories |
| Integration.FetchItems | apps/integration/src/modules/destination-one/destination-one.service.ts:411-463 | by type under a filter, with distinct ids, and otherwise in one request |
| Integration.GathersMeans | apps/integration/src/modules/destination-one/destination-one.service.ts:411-463 | under a filter every type is paged to its last page, the items are exactly the first of each id, the facets those of all types; without one both are those of the one answer |
| Integration.SyncIntegration | apps/integration/src/modules/destination-one/destination-one.service.ts:395-533 | the whole run: a failed page request changes neither service; otherwise the items of the filtered types, deduplicated, or those of the one unfiltered answer are synced in order, the counts are those of the log, and with distinct ids covered items that land end fully imported |
| Integration.SummaryMeans | apps/integration/src/modules/destination-one/destination-one.service.ts:506-533 | the three counts are the numbers of answers that came back with the action |
| Integration.DeliveriesAre | apps/integration/src/modules/destination-one/destination-one.service.ts:490-518 | one delivery per item, as the transport decides |
| Alerts.MonitoringService.CheckAlerts | libs/monitoring/src/monitoring.service.ts:425-449 | one check per rule in rule order; the history gains exactly one alert for each enabled rule whose condition holds and that never fired or whose cooldown is over, in rule order, those rules are stamped, and no others |
| Alerts.RaisesWhenDue | libs/monitoring/src/monitoring.service.ts:432-505 | one check raises an alert if and only if the condition holds and the rule never fired or `lastTriggered` plus cooldown is not after now; the alert's fields and the stamp, and otherwise no change |
| Alerts.ChecksRaiseDue | libs/monitoring/src/monitoring.service.ts:425-449 | a pass over all rules adds the alerts that are due by the rules as they were before the pass |
| Alerts.MonitoringService.TriggerAlert | libs/monitoring/src/monitoring.service.ts:485-515 | stores one new alert object in map and history and stamps the rule, reading the clock for id, timestamp and stamp |
| Alerts.MonitoringService.ResolveAlert | libs/monitoring/src/monitoring.service.ts:588-602 | true exactly for an existing open alert, which is closed in place in map and history |
| Alerts.ResolvesOpen | libs/monitoring/src/monitoring.service.ts:588-602 | a resolution stamps the open alerts of its id, changes no other entry, and answers true exactly when it changes one |
| Alerts.MonitoringService.GetActiveAlerts | libs/monitoring/src/monitoring.service.ts:574-576 | the open alerts, in the order they were raised |
| Alerts.OpenOfMember | libs/monitoring/src/monitoring.service.ts:574-576 | none is missed and no resolved one is among them |
| Alerts.OpenOfPicks | libs/monitoring/src/monitoring.service.ts:574-576 | each once, by the increasing places of the unresolved alerts in the history |
| Alerts.RunKeeps | libs/monitoring/src/monitoring.service.ts:425-515 | every run keeps alerts of a rule at least its cooldown apart |
| Alerts.RateBound | libs/monitoring/src/monitoring.service.ts:430-436 | any window of length w holds at most floor(w / cooldown) + 1 alerts of a rule |
| Alerts.InWindowCounts | libs/monitoring/src/monitoring.service.ts:430-436 | the number bounded is that of the history entries of the rule with a timestamp in the window |
| Alerts.MonitoringService.AlertsAreRateBound | libs/monitoring/src/monitoring.service.ts:425-515 | so does every state of the service, whatever calls led to it |
| Alerts.AlertIdInjective | libs/monitoring/src/monitoring.service.ts:486-487 | an alert id determines its rule and its time |
| Alerts.IdsDistinct | libs/monitoring/src/monitoring.service.ts:485-515 | no two alerts share an id |
| Alerts.MonitoringService.SameSize | libs/monitoring/src/monitoring.service.ts:500-503 | the alert map and the history have the same size |
| Alerts.ResolvedOnce | libs/monitoring/src/monitoring.service.ts:588-602 | in every run each alert is resolved at most once, and then stays so |
| ErrorHistory.ErrorReportingService.StoreError | libs/errors/src/error-reporting.service.ts:193-200 | the history becomes the last 1000 of the old reports and the new one |
| ErrorHistory.ErrorReportingService.ClearErrorHistory | libs/errors/src/error-reporting.service.ts:144-147 | the history is empty afterwards |
| ErrorHistory.HistoryIsSuffix | libs/errors/src/error-reporting.service.ts:144-200 | over every run it is the last min(1000, n) reports since the last clear |
| ErrorHistory.StoredSinceClearIs | libs/errors/src/error-reporting.service.ts:144-200 | those reports are the ones of the operations after the last clear, one by one |
| ErrorHistory.SincePicks | libs/errors/src/error-reporting.service.ts:84-86 | a window holds exactly the reports later than its start, in their order |
| ErrorHistory.MetricsCount | libs/errors/src/error-reporting.service.ts:82-112 | each table has an entry for every code, severity or service with a report in the window, with the number of those reports, and no other |
| ErrorHistory.RatePerMinute | libs/errors/src/error-reporting.service.ts:101 | the rate times the window is the total per 60000 milliseconds, and zero without a window |
| ErrorHistory.RecentAreLast | libs/errors/src/error-reporting.service.ts:103-108 | the recent reports are the last twenty of the window, or all, newest first |
| Grouping.GroupByPartitions | libs/errors/src/error-reporting.service.ts:297-307 | grouping makes one nonempty group per occurring key, holding that key's items in order, none lost |
| ErrorHistory.MetricsSum | libs/errors/src/error-reporting.service.ts:82-112 | for each of the three keys the counts sum to totalErrors |
| ErrorHistory.TopTenIsTop | libs/errors/src/error-reporting.service.ts:92-99 | topErrors is sorted with true counts, and no code left out occurs more often than one shown |
| ErrorHistory.TopMessage | libs/errors/src/error-reporting.service.ts:92-99 | an entry shows the message of the first report with its code, or the fallback when that is empty |
| ErrorHistory.TopTiesKeepOrder | libs/errors/src/error-reporting.service.ts:92-99 | codes of equal count stand in the order of their first report |
| Sorting.SortStable | libs/errors/src/error-reporting.service.ts:98 | the sort keeps the order of what ties |
| Grouping.GroupsInAppearance | libs/errors/src/error-reporting.service.ts:297-307 | groups stand in the order in which their keys first appear |
| ErrorHistory.GetErrorTrends | libs/errors/src/error-reporting.service.ts:125-142 | the loop over a Map yields the sorted hourly counts |
| ErrorHistory.TrendsAreHours | libs/errors/src/error-reporting.service.ts:125-142 | every hour with a report appears once, in order, with the number of its reports |
| ErrorHistory.TrendsCount | libs/errors/src/error-reporting.service.ts:125-142 | from the whole history: an entry for every hour with a report in the window, one day without one given, with their number, and no other |
| ErrorHistory.TrendsSumToTotal | libs/errors/src/error-reporting.service.ts:82-142 | the hourly counts sum to totalErrors for the same nonzero window |
| ErrorHistory.ZeroWindowDiffers | libs/errors/src/error-reporting.service.ts:83-126 | a history and a window of zero on which the metrics count a report and the trends do not |
| ErrorHistory.SameWindowIff | libs/errors/src/error-reporting.service.ts:83-126 | exactly when metrics and trends look at the same window |

## Left out

- Redis and database failures: store operations succeed; a failed remote call is an answer passed to the call.
- Interleaving of concurrent requests, in particular between a lookup and the insert that follows it; each call is one step.
- Cyclic city parents: both walks loop forever on them, so acyclicity is required there; a city with the empty string as its id is excluded from the adjunction of the two walks, as the upward one stops on it.
- Two entries for the same city in one request: the order of the parallel writes is unspecified, so distinct cities are required.
- Reconciliation of a listing's categories, which repeats the shape of the city one.
- Reconciliation of time intervals and their exceptions: those rows are keyed by their own id and updated by it alone, so a request can rewrite a row of another listing; `content` in `ListingModeration.dfy` does not include them.
- Counters of likes, views and shares, which no review looks at.
- File validation, image processing and storage: an upload is given where its file ended up, or that it failed.
- Order of rows from `findMany`: list order stands for whatever order the database returns.
- Sort fields of the listing query: rows come in table order.
- CategoryImport.CoreService.SyncCategoriesFromIntegration: does not model the counters of created and updated categories, which compare two timestamps set by the database.
- CategoryImport.TablesAgree: property names every JavaScript object inherits, such as `constructor`, are not treated as known types; nor are they as recurrence frequencies.
- ListingImport.ListingTables.SyncListingFromIntegration: values of other types than the payload declares, and texts with NUL characters, which the database also rejects; the rounding of coordinates to six digits.
- Grouping.GroupByPartitions: objects used as dictionaries list integer-like keys first; groups here come in order of first appearance.
- ListingImport.TransformToListing: the choice among texts and the assembly of the address come as the item's content and details; the sync hash is an input, since its generator mixes in the current time.
- ListingImport.ImportsKeepOnePerExternal: an admin can set the external source and id of a listing by hand, and no database constraint forbids repetition; the statement is about import runs.
- Integration.SyncIntegration: the checks on the integration row, the log rows and timestamps around the run.
- ListingImport.ItemsLand: only the path with a type filter deduplicates, so distinct ids are required; when an id repeats, later entries overwrite earlier ones.
- AuthSessions: password hashing, JWT signing, terms acceptance, device metadata, audit rows and the role computed into a token are opaque answers.
- Alerts: rules keep their cooldown; edits through `updateAlertRule` and the evaluation of conditions from metrics are not modelled, the condition's answer is a parameter.
- Permissions: role lookups by number, invitations and assignment of admins.
- Parking spaces, tiles, object storage keys, notifications, metrics collection, controllers and wiring: I/O, or repetitions of what is modelled.
