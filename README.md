# PoliVis core, modelled in Dafny

PoliVis ("Civic Lens") is a single-page application that presents Canadian
federal politicians, their parties and the key issues they champion, and
that works offline through a service worker. This project models the
parts of it that carry logic and proves what they promise:

- the **service worker** (`public/service-worker.js`): the versioned cache
  name; the install handler, which stores the application shell all or
  nothing; the activate handler, which deletes every older cache of the
  application; the fetch handler, which is network-first for navigations and
  stale-while-revalidate for assets; and the message handler. The browser's
  CacheStorage is an ordered list of named caches (creation order), each a map
  from URL to response, as sections 5.4 and 5.5 of the W3C Service Workers
  specification describe. `CacheStorage` is a class whose methods update that
  list. `Worker` is a class whose handlers act on it, each proved against a
  pure function of the old storage.
- the **page-side session** (`lib/serviceWorkerManager.ts`): registration,
  the hourly update check, the update banner, skip-waiting, the reload on a
  controller change, the version query with its one-second timeout, and
  unregistering. The module-level state is the class
  `ServiceWorkerManager.Session`. Calls into the browser are appended to an
  effect log.
- the **build stamp** (`scripts/update-version.mjs`): `String.prototype.replace`
  with a string pattern, which replaces only the first placeholder.
- the **version record** (`version.ts`): `VERSION_INFO` from splitting
  `APP_VERSION` on '.', and `getVersionString`.
- the **application shell** (`civic-lens/App.tsx`): the sort weight of a
  position, the sorted list, the selected politician, and the select and
  close handlers.
- the **politicians grid** (`PoliticiansView.tsx`): the party and name
  filters, and the sorted list of distinct parties.
- the **header search** (`GlobalSearchBar.tsx`): at most five results for
  queries longer than one trimmed character, the focus handling, and the
  select handler.
- the **parties overview** (`PartiesView.tsx`): the `forEach` that groups
  politicians by party in order of first appearance. It is an imperative
  loop, proved equal to a direct definition of each party's record.
- the **detail modal** (`PoliticianDetailModal.tsx`): the id lookup maps,
  where a later entry wins; the resolution of issue ids and related ids;
  the Tab focus trap; the reset when the politician changes; and the
  fact-check panel.
- the **issues cloud** (`KeyIssuesCloud.tsx`): the 32-bit string hash loop
  (Java's `hashCode` recurrence), and the size and colour lookups it indexes.

JavaScript strings are Dafny `string`s, one `char` per Unicode scalar value,
and `charCodeAt` is a character's code. `toLowerCase` lowers ASCII letters.
`localeCompare` and the default `sort()` order compare character codes
lexicographically, which is JavaScript's code-unit order inside the Basic
Multilingual Plane.

One thing the proofs show about the source: `getSortWeight` never returns
3. Every "deputy prime minister" position also contains "prime minister",
which the first test catches, so deputy prime ministers rank with prime
ministers (`App.WeightThreeUnreachable`). The model keeps this behaviour.

## Model

| member | source | states |
|---|---|---|
| `ServiceWorker.CacheName` | public/service-worker.js:2-3 | the cache name is "polivis-cache-" followed by the worker's version, which can be read back from it |
| `ServiceWorker.OpenCache` | public/service-worker.js:25 | opening a cache creates it when it is absent; it keeps every existing cache and keeps names distinct |
| `ServiceWorker.HttpUrlProtocol` | public/service-worker.js:59-64 | a URL starts with "http:" or "https:" exactly when its protocol is "http:" or "https:" |
| `ServiceWorker.HttpIsIntercepted` | public/service-worker.js:62-64 | every http(s) request is handled by the worker rather than passed through |
| `ServiceWorker.PutResponse` | public/service-worker.js:74 | a put keeps the list of cache names and leaves every other cache untouched |
| `ServiceWorker.MatchIn` | public/service-worker.js:95 | only a GET can hit, and a hit is the URL's entry in a cache of that name; with distinct names, a GET hits exactly when that cache holds the URL, and then returns its entry |
| `ServiceWorker.MatchAll` | public/service-worker.js:80-85 | a global match hits exactly when the request is a GET and some cache holds the URL; the hit comes from the first such cache in creation order |
| `ServiceWorker.UrlsToCacheUnderScope` | public/service-worker.js:12-16 | for a scope ending in '/', the shell is the scope, its index.html and its manifest.json, all distinct |
| `ServiceWorker.AddAllEntries` | public/service-worker.js:28 | after a successful addAll, each batch URL maps to its fetched response and every other entry is unchanged |
| `ServiceWorker.Installed` | public/service-worker.js:19-34 | after install the current cache exists, the cache names are those after opening it, and every other cache is kept as it was |
| `ServiceWorker.InstallEffect` | public/service-worker.js:19-34 | after install the current cache exists; a successful batch stores every URL's response; a failed batch leaves only the opened cache; no other cache changes |
| `ServiceWorker.InstallIntoEmpty` | public/service-worker.js:24-33 | installing into empty storage leaves exactly one cache, holding the batch |
| `ServiceWorker.FreshInstall` | public/service-worker.js:12-34 | a first install with all three shell URLs fetchable leaves one cache holding exactly those three responses |
| `ServiceWorker.Pruned` | public/service-worker.js:40-49 | activate leaves no more caches than there were, and no stale cache, that is no other cache of the application, survives |
| `ServiceWorker.PrunedMembers` | public/service-worker.js:40-49 | after activate every surviving cache is the current one or lies outside the prefix; a cache survives, with its contents, exactly when it is not stale |
| `ServiceWorker.WithoutMembers` | public/service-worker.js:46 | deleting a set of names removes exactly the caches with those names |
| `ServiceWorker.StaleAmongMembers` | public/service-worker.js:43-44 | the names activate deletes are exactly the listed names that are stale |
| `ServiceWorker.DeletedUpToIsWithout` | public/service-worker.js:42-49 | deleting the stale names one by one up to a position equals deleting the set of stale names seen so far |
| `ServiceWorker.DeleteStaleEnd` | public/service-worker.js:41-49 | deleting every stale name among the keys leaves the pruned storage |
| `ServiceWorker.UpgradeLeavesOnlyNewCache` | public/service-worker.js:19-55 | after an upgrade from 1.0.0 to 1.1.0 has installed and activated, only the 1.1.0 cache remains |
| `ServiceWorker.OpenThenPut` | public/service-worker.js:73-75 | after opening and an allowed put, the cache maps the request to the response, and names stay distinct |
| `ServiceWorker.NonHttpPassesThrough` | public/service-worker.js:61-64 | a request that does not start with "http" is left to the browser and no cache changes |
| `ServiceWorker.HandleFetch` | public/service-worker.js:58-112 | a request is passed through, with no cache changed, exactly when its protocol does not start with "http"; a network error needs a failed fetch; no cache other than the current one is ever touched |
| `ServiceWorker.NetworkFirst` | public/service-worker.js:66-90 | a fetched response is returned; a failed fetch changes no cache and fails exactly when neither the request nor the scope has a hit in any cache; other caches are kept |
| `ServiceWorker.StaleWhileRevalidate` | public/service-worker.js:92-111 | the result fails exactly when the fetch failed and the current cache has no entry; a fetched response always yields a response; the cache names are those after opening the current cache; other caches are kept |
| `ServiceWorker.PutKeepsOthers` | public/service-worker.js:73-74 | opening the current cache and putting into it keeps every other cache |
| `ServiceWorker.NavigationOnline` | public/service-worker.js:67-77 | a navigation the network answers returns that response, and stores it whatever its status, except 206, which `Cache.put` rejects |
| `ServiceWorker.NavigationOffline` | public/service-worker.js:78-87 | a navigation the network fails returns the request's first cache hit, else the scope's, else a network error; the caches are unchanged |
| `ServiceWorker.AssetOutcome` | public/service-worker.js:93-111 | for an asset the current cache's entry wins over the network, the network response of any status comes next, and failure comes last; only a status-200 response replaces the entry |
| `ServiceWorker.HandleMessage` | public/service-worker.js:115-124 | SKIP_WAITING calls skipWaiting; GET_VERSION replies with the version exactly when there is a port; anything else does nothing |
| `ServiceWorker.CacheStorage.Open` | public/service-worker.js:25 | the storage afterwards is the opened storage |
| `ServiceWorker.CacheStorage.Put` | public/service-worker.js:74 | the storage afterwards is the storage with the response put |
| `ServiceWorker.CacheStorage.AddAll` | public/service-worker.js:28 | the batch is stored all or nothing; the result says whether it was stored |
| `ServiceWorker.CacheStorage.Delete` | public/service-worker.js:46 | reports whether the cache existed and removes it |
| `ServiceWorker.CacheStorage.DeleteStale` | public/service-worker.js:41-49 | the loop over the keys leaves the storage without its stale caches, in order |
| `ServiceWorker.CacheStorage.Names` | public/service-worker.js:41 | one name per cache, position by position, so the names come in creation order |
| `ServiceWorker.CacheStorage.Match` | public/service-worker.js:80 | a hit exactly when the request is a GET and some cache holds the URL; the hit is the entry of the first such cache in creation order |
| `ServiceWorker.CacheStorage.MatchCache` | public/service-worker.js:95 | only a GET can hit, and a hit is the URL's entry in a cache of that name; with distinct names, a GET hits exactly when that cache holds the URL |
| `ServiceWorker.Worker.constructor` | public/service-worker.js:1-16 | a worker with its version, scope and storage, which has not yet called skipWaiting or claimed clients |
| `ServiceWorker.Worker.Install` | public/service-worker.js:19-34 | skipWaiting is called once, and the storage becomes the installed storage |
| `ServiceWorker.Worker.Activate` | public/service-worker.js:37-55 | the stale caches are deleted, then the clients are claimed |
| `ServiceWorker.Worker.Fetch` | public/service-worker.js:58-112 | the outcome and the new storage are those of the fetch handler's specification |
| `ServiceWorker.Worker.OnMessage` | public/service-worker.js:115-124 | the reply and the skipWaiting calls are those of `HandleMessage` |
| `ServiceWorkerManager.SelectWorker` | lib/serviceWorkerManager.ts:144-145 | the active worker, else the installing one, else the waiting one; none exactly when all three slots are empty |
| `ServiceWorkerManager.EventValue` | lib/serviceWorkerManager.ts:150-157 | a reply with a non-empty version resolves to that version; a timeout or an empty reply resolves to APP_VERSION |
| `ServiceWorkerManager.Settle` | lib/serviceWorkerManager.ts:149-157 | the promise is settled as soon as it had settled or any event arrives; it stays pending only when no event arrives |
| `ServiceWorkerManager.FirstEventDecides` | lib/serviceWorkerManager.ts:149-158 | the first event settles the version promise and later events change nothing |
| `ServiceWorkerManager.SettledStays` | lib/serviceWorkerManager.ts:149-158 | once the promise is settled, no event changes its value |
| `ServiceWorkerManager.SettledVersionSource` | lib/serviceWorkerManager.ts:140-163 | the version obtained is APP_VERSION or the version of the first reply |
| `ServiceWorkerManager.VersionPromise.Resolve` | lib/serviceWorkerManager.ts:149 | only the first resolve takes effect |
| `ServiceWorkerManager.VersionPromise.Deliver` | lib/serviceWorkerManager.ts:150-157 | a reply or a timeout settles the promise with its value, unless it is already settled |
| `ServiceWorkerManager.Session.constructor` | lib/serviceWorkerManager.ts:8-9 | no registration, no interval, no listeners, no banner, and no effects |
| `ServiceWorkerManager.Session.Init` | lib/serviceWorkerManager.ts:11-55 | when unsupported or when registering fails, null is returned and nothing changes; otherwise the registration is stored, one update check and then the hourly interval are issued, one listener of each kind is added, and the registration is returned |
| `ServiceWorkerManager.Session.CheckForUpdates` | lib/serviceWorkerManager.ts:57-66 | without a registration nothing happens; otherwise an update is requested and nothing else changes |
| `ServiceWorkerManager.Session.SkipWaiting` | lib/serviceWorkerManager.ts:68-73 | SKIP_WAITING is posted to the waiting worker, and only when there is one |
| `ServiceWorkerManager.Session.UpdateApp` | lib/serviceWorkerManager.ts:135-138 | skip-waiting as above, then the banner is removed |
| `ServiceWorkerManager.Session.DismissBanner` | lib/serviceWorkerManager.ts:116 | the banner is removed and nothing else changes |
| `ServiceWorkerManager.Session.SlotsChanged` | lib/serviceWorkerManager.ts:8 | the browser's new worker slots replace the stored registration's slots; without a registration nothing changes |
| `ServiceWorkerManager.Session.OnUpdateFound` | lib/serviceWorkerManager.ts:37-40 | with a listener and an installing worker, that worker gets a statechange listener; otherwise nothing changes |
| `ServiceWorkerManager.Session.OnStateChange` | lib/serviceWorkerManager.ts:41-47 | the banner appears exactly when a watched worker reaches "installed" while a controller exists; since only a registered session watches workers, a shown banner implies a registration |
| `ServiceWorkerManager.Session.OnControllerChange` | lib/serviceWorkerManager.ts:31-34 | a reload is requested exactly when a controllerchange listener was added, hence only in a registered session |
| `ServiceWorkerManager.Session.GetVersion` | lib/serviceWorkerManager.ts:140-158 | APP_VERSION at once without a registration or a worker; otherwise GET_VERSION is posted to the selected worker, which is then asked |
| `ServiceWorkerManager.Session.Unregister` | lib/serviceWorkerManager.ts:165-174 | without a registration nothing happens; otherwise a truthy interval id is cleared, and then the registration is unregistered |
| `UpdateVersion.Substitute` | scripts/update-version.mjs:18 | a replacement in which no '$' starts a pattern ('$$', '$&', '$' then a backquote, or "$'") is inserted verbatim; a leading pattern followed by such a tail becomes '$', the matched text, the text before or the text after, followed by the tail |
| `UpdateVersion.ReplaceFirst` | scripts/update-version.mjs:18 | a string without the pattern is left unchanged |
| `UpdateVersion.StampVersion` | scripts/update-version.mjs:18 | content without the placeholder is written out unchanged |
| `UpdateVersion.StampFirstOccurrence` | scripts/update-version.mjs:18 | with the placeholder present, the output is the text before its first occurrence, then the version, then the text after that occurrence; the text before holds no occurrence |
| `UpdateVersion.LaterOccurrenceSurvives` | scripts/update-version.mjs:18 | a second placeholder is not replaced; it survives, shifted by the difference in length |
| `UpdateVersion.TemplatePlaceholderIndex` | public/service-worker.js:2 | the first placeholder in the worker's version line is right after the opening quote |
| `UpdateVersion.StampTemplate` | scripts/update-version.mjs:18 | stamping the worker's version line yields that line with the version in place of the placeholder |
| `UpdateVersion.StampWorkerScript` | scripts/update-version.mjs:18 | stamping a script made of any placeholder-free text, the version line and any text after it replaces exactly the placeholder in that line and leaves all other text verbatim |
| `UpdateVersion.FirstOccurrenceInMiddle` | scripts/update-version.mjs:18 | when the text before a part has no occurrence and the part starts with a character the pattern lacks, the first occurrence in the whole is the part's first occurrence, shifted |
| `Version.ToNumber` | version.ts:12 | `Number` of a field is a number exactly when the field is all decimal digits |
| `Version.FieldAt` | version.ts:12 | destructuring reads undefined exactly past the end of the fields |
| `Version.ParseVersionInfo` | version.ts:12-20 | `full` and `buildDate` are kept verbatim; `major` is never undefined |
| `Version.FirstThreeFields` | version.ts:12 | three or more dot-free fields joined with '.' parse back to the numbers of the first three; later fields are ignored |
| `Version.TripleRoundTrip` | version.ts:12-20 | the canonical string of any triple parses back to that triple, with fields read as exact integers (`Number` rounds components of 2^53 or more, see Left out) |
| `Version.VersionString` | version.ts:23 | the display string is 'v' followed by the version |
| `Version.AppVersionTriple` | version.ts:8-23 | APP_VERSION "1.0.0" gives VERSION_INFO (1, 0, 0) with the version and build date, and the display string "v1.0.0" |
| `App.SortWeight` | civic-lens/App.tsx:67-72 | the weight is between 1 and 4 |
| `App.WeightThreeUnreachable` | civic-lens/App.tsx:67-72 | no position gets weight 3; weight 1 goes exactly to positions whose lower-cased text contains "prime minister" |
| `App.ComparePoliticians` | civic-lens/App.tsx:73-80 | negative exactly when the first has the smaller weight, or the same weight and the smaller name; zero exactly for equal weights and equal names |
| `App.RankedBeforeTransitive` | civic-lens/App.tsx:73-80 | the comparator is transitive, so with totality it is a total preorder |
| `App.RankedBeforeTotal` | civic-lens/App.tsx:73-80 | the comparator orders every pair one way or the other |
| `App.SortedPoliticians` | civic-lens/App.tsx:66-81 | the sorted list is a permutation of the politicians |
| `App.SortedPoliticiansStable` | civic-lens/App.tsx:73-80 | politicians the comparator ranks equal (same weight, same name) keep their input order, as a stable `sort` does |
| `Sorting.SortStable` | civic-lens/App.tsx:73 | the sort is stable: the members of any class whose elements all come before one another keep their input order |
| `Sorting.InsertKeepsClass` | civic-lens/App.tsx:73 | inserting an element places it before every member of its own class and keeps the class's order |
| `App.SortedPoliticiansOrdered` | civic-lens/App.tsx:66-81 | the sorted list is a permutation in which the weight never decreases, and names are in order within one weight |
| `App.FindById` | civic-lens/App.tsx:85 | the first politician with the id; none exactly when no politician has it |
| `App.SelectedPolitician` | civic-lens/App.tsx:83-86 | nothing for a null or 0 id; otherwise the first politician with the id, which is in the list |
| `App.Selection.constructor` | civic-lens/App.tsx:41 | nothing is selected at first |
| `App.Selection.Select` | civic-lens/App.tsx:88-90 | the given id becomes the selected id |
| `App.Selection.Close` | civic-lens/App.tsx:92-94 | the selection is cleared |
| `App.Selection.Shown` | civic-lens/App.tsx:83-86 | the politician shown is in the list and carries the selected id |
| `PoliticiansView.FilteredPoliticians` | civic-lens/components/PoliticiansView.tsx:21-35 | the filtered list is never longer than the list |
| `PoliticiansView.FilteredIsOneFilter` | civic-lens/components/PoliticiansView.tsx:21-35 | the two chained filters equal a single order-keeping filter that tests party and name; a blank query filters nothing |
| `PoliticiansView.NoFilterShowsAll` | civic-lens/components/PoliticiansView.tsx:22-34 | with no party and a blank query, every politician is shown, in order |
| `PoliticiansView.FilteredMembers` | civic-lens/components/PoliticiansView.tsx:21-35 | a politician is shown exactly when it is in the list and passes both tests |
| `PoliticiansView.PartiesOf` | civic-lens/components/PoliticiansView.tsx:38 | each politician's party, position by position |
| `PoliticiansView.AllParties` | civic-lens/components/PoliticiansView.tsx:37-40 | the list of parties is a permutation of the distinct parties |
| `PoliticiansView.AllPartiesSpec` | civic-lens/components/PoliticiansView.tsx:37-40 | each party that has a politician appears exactly once, no other party appears, and the names are in strictly increasing order |
| `PoliticiansView.Filters.constructor` | civic-lens/components/PoliticiansView.tsx:14-15 | no party is selected and the query is empty |
| `PoliticiansView.Filters.SelectParty` | civic-lens/components/PoliticiansView.tsx:17-19 | the party becomes the selected party and the query is kept |
| `PoliticiansView.Filters.SetQuery` | civic-lens/components/PoliticiansView.tsx:50 | the query is replaced and the party is kept |
| `PoliticiansView.Filters.Visible` | civic-lens/components/PoliticiansView.tsx:54 | the grid shows only politicians from the list |
| `GlobalSearchBar.Matches` | civic-lens/components/GlobalSearchBar.tsx:18-20 | the matches are exactly the politicians whose lower-cased name contains the lower-cased query |
| `GlobalSearchBar.SearchResults` | civic-lens/components/GlobalSearchBar.tsx:16-25 | at most five results, all of them matches from the list, and none for a query of at most one trimmed character |
| `GlobalSearchBar.SearchResultsLeading` | civic-lens/components/GlobalSearchBar.tsx:17-21 | for a long enough query the results are the leading matches: all of them when there are at most five, else the first five |
| `GlobalSearchBar.BlankQueryNoResults` | civic-lens/components/GlobalSearchBar.tsx:16-24 | a query of white space alone, however long, gives no results |
| `GlobalSearchBar.SearchBar.constructor` | civic-lens/components/GlobalSearchBar.tsx:11-13 | an empty, unfocused box with no results |
| `GlobalSearchBar.SearchBar.SetQuery` | civic-lens/components/GlobalSearchBar.tsx:16-25 | after a change of query the results are the search results of the new query |
| `GlobalSearchBar.SearchBar.SetPoliticians` | civic-lens/components/GlobalSearchBar.tsx:16-25 | after a change of list the results are the search results over the new list |
| `GlobalSearchBar.SearchBar.Focus` | civic-lens/components/GlobalSearchBar.tsx:56 | the box is focused and nothing else changes |
| `GlobalSearchBar.SearchBar.MouseDown` | civic-lens/components/GlobalSearchBar.tsx:27-37 | a press outside the box drops the focus, and a press inside changes nothing |
| `GlobalSearchBar.SearchBar.HandleSelect` | civic-lens/components/GlobalSearchBar.tsx:39-44 | the id is passed on, and the box is cleared, emptied of results and unfocused |
| `GlobalSearchBar.ShortQueryHidesDropdown` | civic-lens/components/GlobalSearchBar.tsx:63 | a query of at most one trimmed character never shows the dropdown |
| `PartiesView.GroupIndex` | civic-lens/components/PartiesView.tsx:33-36 | the party's record is at the first position holding that party; none when no record does |
| `PartiesView.LastLeaderSpec` | civic-lens/components/PartiesView.tsx:40-42 | the leader is the last member whose position mentions "leader"; there is none exactly when no member's does |
| `PartiesView.Groups` | civic-lens/components/PartiesView.tsx:45-50 | one record per party in the order given |
| `PartiesView.GroupsAt` | civic-lens/components/PartiesView.tsx:45-50 | the record at each position is the direct definition of that party's record |
| `PartiesView.Collect` | civic-lens/components/PartiesView.tsx:32-43 | the forEach leaves no more records than politicians, no party with two records, and no record without members |
| `PartiesView.ExpectedStepKnown` | civic-lens/components/PartiesView.tsx:33-42 | a politician of a party that already has a record extends that record only |
| `PartiesView.ExpectedStepNew` | civic-lens/components/PartiesView.tsx:33-42 | a politician of a new party appends a record holding just that politician |
| `PartiesView.CollectIsExpected` | civic-lens/components/PartiesView.tsx:32-43 | the forEach yields one record per distinct party, in order of first appearance, each equal to its direct definition |
| `PartiesView.Summaries` | civic-lens/components/PartiesView.tsx:45-50 | each shown record keeps its party, members and leader, and its first issues in insertion order, up to three |
| `PartiesView.AddIssues` | civic-lens/components/PartiesView.tsx:38 | adding a politician's issues to the insertion-ordered set |
| `PartiesView.AddToGroups` | civic-lens/components/PartiesView.tsx:33-42 | one pass of the `forEach` body creates the party's record if it is missing and extends it, as `AddPolitician` states |
| `PartiesView.PartiesData` | civic-lens/components/PartiesView.tsx:29-51 | the loop's result is the summary of the directly defined records |
| `PartiesView.MemberCountsSum` | civic-lens/components/PartiesView.tsx:32-43 | every politician is in exactly one record: the members add up to the list's length |
| `PartiesView.ShownRecord` | civic-lens/components/PartiesView.tsx:29-51 | the k-th shown record is the k-th distinct party, with exactly its politicians in list order, their last leader, and the first three of their distinct issues |
| `DetailModal.IndexByLastWins` | civic-lens/components/PoliticianDetailModal.tsx:136-137 | the map holds exactly the items' keys, and for a repeated key the later item wins |
| `DetailModal.IndexByValues` | civic-lens/components/PoliticianDetailModal.tsx:136-137 | every value of the map is an item, stored under its own key |
| `DetailModal.ResolveValues` | civic-lens/components/PoliticianDetailModal.tsx:139-145 | every resolved value is the map's value for one of the ids |
| `DetailModal.ResolveDropsUnknown` | civic-lens/components/PoliticianDetailModal.tsx:139-145 | resolving drops the unknown ids and looks up the others, in order |
| `DetailModal.PoliticianKeyIssues` | civic-lens/components/PoliticianDetailModal.tsx:139-141 | no more issues than ids; each is one of all issues, with one of the politician's issue ids |
| `DetailModal.RelatedPoliticians` | civic-lens/components/PoliticianDetailModal.tsx:143-145 | no more politicians than related ids; each is one of all politicians, with one of the related ids |
| `DetailModal.TrapTarget` | civic-lens/components/PoliticianDetailModal.tsx:105-118 | the trap acts only on Tab: on the last element it wraps to index 0, and with Shift on the first it wraps to index count - 1; any other key or element is left to the browser |
| `DetailModal.FocusTrap.constructor` | civic-lens/components/PoliticianDetailModal.tsx:90-103 | the trigger is remembered; with a focusable element the first one is focused and the trap is installed; otherwise nothing is installed |
| `DetailModal.FocusTrap.KeyDown` | civic-lens/components/PoliticianDetailModal.tsx:105-120 | an installed trap moves the focus and prevents the default exactly as `TrapTarget` says; otherwise nothing happens |
| `DetailModal.FocusTrap.Unmount` | civic-lens/components/PoliticianDetailModal.tsx:98-125 | the cleanup exists only when the listener was installed: it removes the listener and returns the focus to the trigger; otherwise the focus is left where it was |
| `DetailModal.SettledSummary` | civic-lens/components/PoliticianDetailModal.tsx:153-167 | after the call the panel is not loading; an error is shown exactly when the call threw, and it is "Failed to fetch AI summary. " followed by the message (or "An unknown error occurred."); data is shown exactly when a text came back |
| `DetailModal.ModalState.constructor` | civic-lens/components/PoliticianDetailModal.tsx:84-85 | the overview tab, with an idle summary |
| `DetailModal.ModalState.SelectTab` | civic-lens/components/PoliticianDetailModal.tsx:84 | the tab changes and the summary is kept |
| `DetailModal.ModalState.ShowPolitician` | civic-lens/components/PoliticianDetailModal.tsx:128-132 | a different politician resets the tab to overview and the summary to idle; the same one keeps both |
| `DetailModal.ModalState.BeginFactCheck` | civic-lens/components/PoliticianDetailModal.tsx:154 | the panel shows the loading state |
| `DetailModal.ModalState.CompleteFactCheck` | civic-lens/components/PoliticianDetailModal.tsx:155-167 | the panel shows the settled summary of the call's outcome |
| `KeyIssuesCloud.ToInt32` | civic-lens/components/KeyIssuesCloud.tsx:28 | OR-ing with 0 gives a signed 32-bit integer, and leaves a signed 32-bit integer unchanged |
| `KeyIssuesCloud.ToInt32Congruent` | civic-lens/components/KeyIssuesCloud.tsx:28 | numbers that differ by a multiple of 2^32 convert to the same 32-bit integer |
| `KeyIssuesCloud.Wraps` | civic-lens/components/KeyIssuesCloud.tsx:27-28 | a number is its 32-bit conversion plus a whole multiple of 2^32 |
| `KeyIssuesCloud.StepIsTimes31` | civic-lens/components/KeyIssuesCloud.tsx:27-28 | `(h << 5) - h + c`, wrapped, is `31 * h + c` wrapped |
| `KeyIssuesCloud.Hash` | civic-lens/components/KeyIssuesCloud.tsx:25-29 | the hash is always a signed 32-bit integer |
| `KeyIssuesCloud.HashIsPolynomial` | civic-lens/components/KeyIssuesCloud.tsx:21-29 | the loop computes the polynomial of the character codes in base 31, modulo 2^32, as a signed integer |
| `KeyIssuesCloud.Index` | civic-lens/components/KeyIssuesCloud.tsx:19-31 | the empty input gives 0; otherwise NaN exactly when max is 0; for a positive max, an index in [0, max) |
| `KeyIssuesCloud.DeterministicIndex` | civic-lens/components/KeyIssuesCloud.tsx:19-31 | the loop's result is the index of the hash |
| `KeyIssuesCloud.DeterministicIndexOfNumber` | civic-lens/components/KeyIssuesCloud.tsx:20 | a number is hashed through its decimal string |
| `KeyIssuesCloud.NumberIndexInRange` | civic-lens/components/KeyIssuesCloud.tsx:20-30 | a number's index is in range for a positive max |
| `KeyIssuesCloud.SizeClass` | civic-lens/components/KeyIssuesCloud.tsx:37 | the size class is one of the five sizes; the lookup is never out of range |
| `KeyIssuesCloud.ColorClass` | civic-lens/components/KeyIssuesCloud.tsx:38 | the colour class is one of the seven colours; the lookup is never out of range |
| `Text.IndexOf` | scripts/update-version.mjs:18 | the first position where the pattern occurs; none exactly when it does not occur |
| `Text.DeputyImpliesPrime` | civic-lens/App.tsx:68-70 | a text containing "deputy prime minister" contains "prime minister" |
| `Text.Trim` | civic-lens/components/GlobalSearchBar.tsx:16 | the trimmed text starts and ends with a non-space, unless it is empty |
| `Text.TrimKeepsMiddle` | civic-lens/components/GlobalSearchBar.tsx:16 | trimming removes only leading and trailing white space: the result is a contiguous slice of the text, verbatim, with only white space before and after it |
| `Text.TrimEmptyIffBlank` | civic-lens/components/PoliticiansView.tsx:28 | a text trims to nothing exactly when it is all white space |
| `Text.Lower` | civic-lens/components/PoliticiansView.tsx:30 | lower-casing keeps the length and lowers each character |
| `Text.Compare` | civic-lens/App.tsx:79 | the comparison is -1, 0 or 1, and 0 exactly for equal strings |
| `Text.CompareAntisymmetric` | civic-lens/App.tsx:79 | swapping the operands negates the comparison |
| `Text.CompareTransitive` | civic-lens/App.tsx:79 | the order of strings is transitive |
| `Text.IndexOfIs` | scripts/update-version.mjs:18 | an occurrence with none before it is the one indexOf finds |
| `Text.JoinSplit` | version.ts:12 | joining the split fields with the separator gives back the string |
| `Text.SplitJoin` | version.ts:12 | splitting fields joined with a separator they do not contain gives back the fields |
| `Text.DigitsValueOfNatToString` | civic-lens/components/KeyIssuesCloud.tsx:20 | the decimal string of a number reads back as that number |

## Left out

- Network, timers, logging and the DOM are not modelled. A fetch's answer is a parameter, and `None` stands for a rejected fetch. The one-second timeout and the reply are events fed to `VersionPromise` in either order. The update banner and the page reload are flags on `Session`.
- `setInterval` does not fire on its own. `CheckForUpdates` is the action each tick would take.
- `ServiceWorkerManager.Session.CheckForUpdates`: the model does not distinguish a rejected `registration.update()` from a successful one, because the source catches and only logs the failure.
- Each `addEventListener` call adds a listener, which the model counts. Calling `initServiceWorker` twice therefore gives two counted listeners, but the duplicate callbacks are not run twice.
- `postMessage` throwing in `getServiceWorkerVersion` (the catch path) is not modelled. The model posts, then waits for an event.
- `BASE`'s fallback to '/' when the worker has no registration scope is not modelled. The scope is a parameter of `Worker`, and `Resolve` handles only one-segment relative paths (`new URL` in general is not modelled).
- URL fragments, `Vary` headers and request bodies are not modelled. A cache entry is keyed by the request URL.
- `ServiceWorker.CacheStorage.DeleteStale` deletes the stale caches one after another. The source starts them together with `Promise.all`. The end state is the same, but interleavings are not modelled.
- The background revalidation of stale-while-revalidate is run to completion within the same fetch. The moment the put lands after the response is not modelled.
- `CACHE_MAX_AGE` and `CHECK_UPDATE_INTERVAL` in the worker are unused there and are not modelled.
- `UpdateVersion.StampFirstOccurrence`: a version containing '$' is excluded by its requires. `$` patterns in the replacement are modelled by `Substitute`, but the exact insertion is proved only for versions without '$'.
- The file reads and writes of `scripts/update-version.mjs` are not modelled. Nor is its regeneration of `version.ts` with a new build date, which is I/O and a clock.
- `getFullVersionString` is not modelled, because it depends on `Date` and the locale.
- `Number(field)` is modelled only for strings of decimal digits, with "" read as 0. Any other field is NaN. Signs, white space, hexadecimal and exponent syntaxes are not modelled.
- `Version.ToNumber`: a digit string is read as its exact integer value, without rounding to a double. `Number` rounds values of 2^53 or more to the nearest double, so `Version.TripleRoundTrip` holds in JavaScript only for components below 2^53.
- `toLowerCase` lowers ASCII letters only. Unicode case mapping is not modelled.
- `localeCompare` and the default `sort()` order are both modelled as code-unit lexicographic order. Locale collation is not modelled.
- `charCodeAt` is a character's code. Characters outside the Basic Multilingual Plane are not split into UTF-16 surrogate pairs.
- `Text.Compare`: strings are compared by character code (Unicode scalar value). Outside the Basic Multilingual Plane this can differ from JavaScript's UTF-16 code-unit order, which `<`, `sort()` and the modelled `localeCompare` follow.
- `Number.prototype.toString` is modelled for integers only, through `IntToString`. Fractions and exponent notation are not modelled.
- `KeyIssuesCloud.Index`: only an integer `max` is modelled, so a non-integer max and `Infinity` are not covered.
- `Array.prototype.sort` is modelled by a stable insertion sort, which is what the standard requires of `sort` today; its stability is proved by `Sorting.SortStable`. The engine's actual algorithm is not modelled.
- The browser's default Tab movement between elements is not modelled. `FocusTrap` tracks only the wrap-around the handler performs.
- `handleFactCheck`: the content-generation call is an `Outcome` parameter, and the prompt text is not modelled. A fact check that settles after the politician has changed overwrites the reset summary, as in the source, but that race is not modelled as a separate event.
- `DetailModal.SettledSummary`: when the response has no `text`, the panel shows neither data nor error, as in the source.
- Scroll tracking, `useBodyScrollLock`, the side navigation, the issues view, icons, JSX rendering, styling and the static datasets are presentation or data and are not modelled.
