# Offline-caching service worker, modelled in Dafny

This project models the service worker of the blog (`static/sw.js`). The worker
intercepts same-origin GET requests. It serves HTML documents network-first and
every other asset cache-first. It precaches four critical pages at install time
and deletes caches from older versions at activation. It also accepts a
`SKIP_WAITING` message from the pages it controls.

Modules:

- `Wrappers` and `Http` (`http.dfy`): `Option`, and the request, response, network
  outcome and strategy result values.
- `CacheStorage` (`cache_storage.dfy`): the browser's CacheStorage and Cache API as
  the worker uses them. The store is an ordered list of named caches, because
  `caches.match` searches every cache in creation order and returns the first hit.
  The module covers `open`, `put`, `addAll`, `delete`, `keys` and `match`.
- `Policy` (`policy.dfy`): the constants `CACHE_VERSION`, `CACHE_NAME` and
  `PRECACHE_ASSETS`, the router, the two strategies, install, and the stale-name
  filter of activate. All are functions of the store, the request and the network
  outcome. The lemmas state what these guarantee.
- `ServiceWorker` (`service_worker.dfy`): class `Worker` holds the store and the
  skip-waiting flag. Its event handlers update them in place. Each handler is proved
  against the matching `Policy` function. `OnActivate` deletes the stale caches one
  by one in a loop. The source starts all the `caches.delete` calls at once under
  `Promise.all`; the loop reaches the same final store, but in a fixed order.

The network is an input. A strategy receives what `fetch(request)` does: it
resolves with a response of any status, or it rejects with an error. Install
receives a total function from URL to such an outcome. The `fetched` flag of a
strategy's `Outcome` records whether the network was consulted. URLs are absolute
strings. The relative paths in the source (`/offline.html` and the precache list)
are resolved as origin followed by path, which is what URL resolution gives for
absolute-path references.

Three details of the source shape the model:

- The "Cache successful responses" branches (`static/sw.js:77-78` and
  `static/sw.js:113-114`) test `status === 200` only. Other success statuses
  such as 203 or 204 are returned but never stored.
- The `.catch` at `static/sw.js:25-27` swallows a rejected `addAll`. Install then
  keeps the opened (possibly empty) cache, and `skipWaiting` is requested anyway.
- `caches.match('/offline.html')` at `static/sw.js:94` resolves to `undefined` when
  no cache holds the page. The model returns `NoResp` then, and the page gets a
  network error.

## Model

| member | source | states |
|---|---|---|
| `Policy.Route` | static/sw.js:53-70 | A request is passed through exactly when its method is not GET or its origin differs from the worker's; an intercepted request goes to network-first exactly when its destination is `document`, otherwise to cache-first |
| `Policy.NetworkFirst` | static/sw.js:73-99 | Network-first: a network response is returned unchanged and stored under `CACHE_NAME` only when its status is exactly 200 (any other status leaves the store unchanged); on a network failure the store is unchanged and the result is the cached hit, else for documents whatever is stored under `/offline.html` (possibly nothing), else the same error |
| `Policy.CacheFirst` | static/sw.js:102-124 | Cache-first: a hit is returned as stored with the store unchanged and no fetch; a miss fetches, stores a status-200 response under `CACHE_NAME`, returns any response unchanged, and rethrows a network failure as the same error with no fallback and the store unchanged |
| `Policy.PrecacheUrls` | static/sw.js:8-13 | The precache requests are pairwise distinct URLs, so `addAll` never rejects them as duplicates, and one of them is the offline page |
| `Policy.ResolveInjective` | static/sw.js:23 | Distinct paths resolve to distinct URLs against the same origin |
| `Policy.Install` | static/sw.js:16-30 | Install leaves a cache named `CACHE_NAME` in the store, leaves the cache names and their order as `caches.open(CACHE_NAME)` left them, changes no other cache, and keeps cache names distinct |
| `Policy.InstallAllOrNone` | static/sw.js:20-28 | When every precache fetch yields an acceptable response, all four pages are stored with exactly the fetched responses and every other entry of the `CACHE_NAME` cache is kept; otherwise the failure is swallowed and the `CACHE_NAME` contents are as before |
| `Policy.InstalledDocumentsNeverFailOffline` | static/sw.js:16-95 | After an install whose precache succeeded, every document request gets a response whatever the network does |
| `Policy.InstallIdempotent` | static/sw.js:19-29 | Installing twice with the same network gives the same store as installing once |
| `Policy.StaleNames` | static/sw.js:40-41 | A name is stale exactly when it is one of the existing names and differs from `CACHE_NAME` |
| `Policy.WithoutStaleIsRetain` | static/sw.js:37-46 | Deleting every stale name leaves exactly the caches named `CACHE_NAME` |
| `Policy.InstallThenActivate` | static/sw.js:16-48 | After install and then activate, the store holds exactly one cache, named `CACHE_NAME` |
| `Policy.NetworkFirstThenCacheFirst` | static/sw.js:73-108 | Once only the current cache exists, a status-200 document fetched network-first is then served by cache-first from the cache, unchanged and without fetching |
| `Policy.DocumentsNeverFailOffline` | static/sw.js:84-95 | A document request never rejects while `/offline.html` is in the current cache: it gets the network response, a cached copy or the offline page |
| `Policy.StrategiesReturnNetworkOrStored` | static/sw.js:73-124 | Every response either strategy returns is the network's response or one already held by some cache |
| `Policy.StrategiesStoreOnlyStatus200` | static/sw.js:77-117 | Every response either strategy adds to or replaces in the store has status exactly 200 |
| `Policy.StaleCacheShadowsFreshCopy` | static/sw.js:78-107 | For every store in which the first cache holding a URL is named other than `CACHE_NAME` and comes before it: network-first storing a fresh copy leaves what `caches.match` finds unchanged, and cache-first keeps serving the older copy, while the `CACHE_NAME` cache holds the fresh one |
| `Policy.PutIntoCurrentBehindMatch` | static/sw.js:79-80 | `caches.open(CACHE_NAME)` and `cache.put` behind an earlier cache holding the URL leave `caches.match` of that URL unchanged |
| `CacheStorage.Names` | static/sw.js:37 | `caches.keys()` lists every cache's name, in order |
| `CacheStorage.Match` | static/sw.js:86 | `caches.match(url)` finds nothing exactly when no cache holds `url`; otherwise it returns the response of the first cache, in creation order, that holds it |
| `CacheStorage.Open` | static/sw.js:20 | `caches.open(name)` reuses an existing cache or appends an empty one, changes no stored response and no lookup, and keeps names distinct |
| `CacheStorage.AppendEmptyCache` | static/sw.js:79 | Appending an empty cache adds its name last and changes no cache's contents and no lookup |
| `CacheStorage.PutEntries` | static/sw.js:23 | Writing entries into one cache merges them into that cache (new entries win) and changes no other cache and no name |
| `CacheStorage.OpenAndPut` | static/sw.js:79-80 | After `caches.open(name)` and `cache.put(url, resp)`, that cache maps `url` to `resp`, keeps its other entries, and every other cache is unchanged |
| `CacheStorage.Delete` | static/sw.js:44 | `caches.delete(name)` removes that name and keeps every other cache's name and contents |
| `CacheStorage.Retain` | static/sw.js:40-44 | Keeping only the caches named `keep` leaves only that name, keeps it if it was there, and keeps its contents |
| `CacheStorage.RetainIdempotent` | static/sw.js:40-44 | Keeping only one name a second time changes nothing, so a second activation leaves the store as the first did |
| `CacheStorage.RetainAtMostOne` | static/sw.js:40-44 | With distinct names, keeping one name leaves exactly one cache if it existed, and none otherwise |
| `CacheStorage.WithoutNothing` | static/sw.js:39-46 | Deleting no name changes nothing |
| `CacheStorage.DeleteWithout` | static/sw.js:42-45 | Deleting one more name after a set of names is deleting the enlarged set |
| `CacheStorage.WithoutAllButOne` | static/sw.js:40-41 | Deleting exactly the names that differ from `keep` is keeping `keep` |
| `CacheStorage.AddAll` | static/sw.js:23 | `cache.addAll` yields entries exactly when the requested URLs are distinct (a repeated request rejects) and every fetch is an ok response other than 206; the entries then cover exactly the requested URLs, each mapped to its fetched response |
| `CacheStorage.FetchAll` | static/sw.js:23 | The fetch half of `addAll` succeeds exactly when every fetch is acceptable, and then maps each URL to its fetched response |
| `CacheStorage.PutEntriesTwice` | static/sw.js:23 | Writing the same entries twice is writing them once |
| `CacheStorage.EntriesAreMatched` | static/sw.js:94 | A URL stored in any named cache is found by `caches.match` |
| `CacheStorage.MatchAfterPut` | static/sw.js:79-86 | After a put into cache `name`, `caches.match` returns the put response, provided no other-named cache holds that URL |
| `CacheStorage.MatchAfterPutEntries` | static/sw.js:80 | The same round trip for a put into a cache that already exists |
| `CacheStorage.PutBehindMatchKeepsMatch` | static/sw.js:80-86 | A put into cache `name` leaves `caches.match(url)` unchanged when the first cache holding `url` comes before every cache called `name` |
| `CacheStorage.MatchedAtIsMatch` | static/sw.js:86 | `caches.match(url)` returns the response of the first cache that holds `url` |
| `ServiceWorker.Worker.OnInstall` | static/sw.js:16-30 | The install handler leaves the store that `Policy.Install` gives and always sets the skip-waiting flag |
| `ServiceWorker.Worker.OnActivate` | static/sw.js:33-50 | The activate handler's deletion loop leaves exactly the caches named `CACHE_NAME`, with their contents |
| `ServiceWorker.Worker.NetworkFirstStrategy` | static/sw.js:73-99 | The method returns the result and leaves the store that `Policy.NetworkFirst` gives |
| `ServiceWorker.Worker.CacheFirstStrategy` | static/sw.js:102-124 | The method returns the result and leaves the store that `Policy.CacheFirst` gives |
| `ServiceWorker.Worker.OnFetch` | static/sw.js:53-70 | Non-GET and cross-origin requests are not intercepted and leave the store unchanged; documents get network-first and every other request cache-first |
| `ServiceWorker.Worker.OnMessage` | static/sw.js:127-131 | Skip-waiting is requested exactly when the data is an object whose `type` is `"SKIP_WAITING"`; the store is unchanged |

## Left out

- Logging (`console.log`, `console.error`) has no effect on state and is not modelled.
- `event.waitUntil` and `event.respondWith` lifetime semantics, and `self.clients.claim()`, are not modelled.
- The lifecycle states (installing, waiting, activating, active) are not modelled; skip-waiting is a flag that records that `self.skipWaiting()` was called.
- Concurrent fetch events and their interleaving are not modelled: each handler runs to completion on the store.
- `cache.put` is not awaited in the source. The model completes the put before the strategy returns, so a failed put is unobserved.
- Failures of `caches.open`, `caches.keys` and `caches.delete` are not modelled.
- URL parsing is not modelled: a request carries its origin as a field, and relative paths are resolved as origin followed by path.
- `Response.clone()` and body streams are not modelled: responses are immutable values, and headers are part of `body`.
- The Cache API's method check (a non-GET request never matches and cannot be put) is not modelled. The strategies are only reached through the router, which passes on GET requests alone.
- `Vary` headers, query-ignoring options and opaque cross-origin responses are not modelled.
- The HTTP cache bypass of the precache requests (`cache: 'reload'`) is not modelled: the install network function stands for the network itself.
- The search widget (`themes/PaperMod/assets/js/fastsearch.js`) is DOM and timer code around an external fuzzy-search library. The WebP probe (`public/js/webp-support.js`) only sets a CSS class. Neither is part of this model.
