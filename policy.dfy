/** The decisions of the offline-caching service worker, as functions of the cache
    store, the request and what the network does: which requests are intercepted,
    what each strategy returns and stores, and what install and activate leave behind. */
module Policy {
  import opened Wrappers
  import opened Http
  import opened CacheStorage

  const CACHE_VERSION: string := "v1.0.0"
  const CACHE_NAME: string := "sherlock-ramos-" + CACHE_VERSION

  /** The critical pages fetched into the cache at install time. */
  const PRECACHE_ASSETS: seq<string> := ["/", "/posts/", "/about/", "/offline.html"]

  /** The page served to a document request when both network and cache miss. */
  const OFFLINE_PAGE: string := "/offline.html"

  datatype Strategy = NetworkFirstRoute | CacheFirstRoute

  /** The fetch router: `None` means the worker does not call `respondWith`, so the
      browser handles the request itself. */
  function Route(selfOrigin: string, req: Request): (r: Option<Strategy>)
    ensures r.None? <==> req.httpMethod != "GET" || req.origin != selfOrigin
    ensures r.Some? ==> (r.value == NetworkFirstRoute <==> req.destination == "document")
  {
    if req.httpMethod != "GET" || req.origin != selfOrigin then None
    else if req.destination == "document" then Some(NetworkFirstRoute)
    else Some(CacheFirstRoute)
  }

  /** What a strategy settles to, the cache store it leaves, and whether it fetched. */
  datatype Outcome = Outcome(result: StrategyResult, store: Store, fetched: bool)

  /** The result of returning the promise of a cache lookup. */
  function FromMatch(found: Option<Response>): StrategyResult
  {
    match found
    case Some(resp) => Resp(resp)
    case None => NoResp
  }

  /** Network-first (used for HTML documents). */
  function NetworkFirst(s: Store, selfOrigin: string, req: Request, net: NetworkOutcome): (o: Outcome)
    ensures o.fetched
    // the network's response is returned as it is; only status 200 is stored
    ensures net.Ok? ==> o.result == Resp(net.response)
    ensures net.Ok? && net.response.status == 200 ==> o.store == OpenAndPut(s, CACHE_NAME, req.url, net.response)
    ensures net.Ok? && net.response.status != 200 ==> o.store == s
    // offline: the cache, then the offline page for documents, else the same error
    ensures net.Fail? ==> o.store == s
    ensures net.Fail? && Match(s, req.url).Some? ==> o.result == Resp(Match(s, req.url).value)
    ensures net.Fail? && Match(s, req.url).None? && req.destination == "document" ==>
              o.result == FromMatch(Match(s, Resolve(selfOrigin, OFFLINE_PAGE)))
    ensures net.Fail? && Match(s, req.url).None? && req.destination != "document" ==>
              o.result == Err(net.error)
  {
    match net
    case Ok(resp) =>
      var stored := if resp.status == 200 then OpenAndPut(s, CACHE_NAME, req.url, resp) else s;
      Outcome(Resp(resp), stored, true)
    case Fail(error) =>
      var result :=
        match Match(s, req.url)
        case Some(cached) => Resp(cached)
        case None =>
          if req.destination == "document" then FromMatch(Match(s, Resolve(selfOrigin, OFFLINE_PAGE)))
          else Err(error);
      Outcome(result, s, true)
  }

  /** Cache-first (used for every other asset). */
  function CacheFirst(s: Store, req: Request, net: NetworkOutcome): (o: Outcome)
    // a hit is served as stored, without touching the network or the store
    ensures Match(s, req.url).Some? ==> o == Outcome(Resp(Match(s, req.url).value), s, false)
    // a miss goes to the network
    ensures Match(s, req.url).None? ==> o.fetched
    ensures Match(s, req.url).None? && net.Ok? ==> o.result == Resp(net.response)
    ensures Match(s, req.url).None? && net.Ok? && net.response.status == 200 ==>
              o.store == OpenAndPut(s, CACHE_NAME, req.url, net.response)
    ensures Match(s, req.url).None? && net.Ok? && net.response.status != 200 ==> o.store == s
    ensures Match(s, req.url).None? && net.Fail? ==> o.result == Err(net.error) && o.store == s
  {
    match Match(s, req.url)
    case Some(cached) => Outcome(Resp(cached), s, false)
    case None =>
      match net
      case Ok(resp) =>
        var stored := if resp.status == 200 then OpenAndPut(s, CACHE_NAME, req.url, resp) else s;
        Outcome(Resp(resp), stored, true)
      case Fail(error) => Outcome(Err(error), s, true)
  }

  /** The precache paths as the absolute URLs `new Request(path)` gives them. */
  function PrecacheUrls(selfOrigin: string): (urls: seq<Url>)
    ensures Distinct(urls)
    ensures Resolve(selfOrigin, OFFLINE_PAGE) in urls
  {
    var urls := seq(|PRECACHE_ASSETS|, i requires 0 <= i < |PRECACHE_ASSETS| => Resolve(selfOrigin, PRECACHE_ASSETS[i]));
    forall i, j | 0 <= i < j < |urls| ensures urls[i] != urls[j] {
      ResolveInjective(selfOrigin, PRECACHE_ASSETS[i], PRECACHE_ASSETS[j]);
    }
    assert urls[3] == Resolve(selfOrigin, OFFLINE_PAGE);
    urls
  }

  /** Different paths resolve to different URLs against the same origin. */
  lemma ResolveInjective(origin: string, p: string, q: string)
    ensures Resolve(origin, p) == Resolve(origin, q) ==> p == q
  {
    assert Resolve(origin, p)[|origin|..] == p;
    assert Resolve(origin, q)[|origin|..] == q;
  }

  lemma PrecacheUrlsAt(selfOrigin: string)
    ensures |PrecacheUrls(selfOrigin)| == |PRECACHE_ASSETS|
    ensures forall i :: 0 <= i < |PRECACHE_ASSETS| ==> PrecacheUrls(selfOrigin)[i] == Resolve(selfOrigin, PRECACHE_ASSETS[i])
  {
  }

  /** Install: open the current cache, then `addAll` the precache list; a rejected
      `addAll` is caught and leaves the opened cache as it was. */
  function Install(s: Store, selfOrigin: string, fetch: Url -> NetworkOutcome): (r: Store)
    ensures CACHE_NAME in Names(r)
    ensures Names(r) == Names(Open(s, CACHE_NAME))
    ensures forall n :: n != CACHE_NAME ==> Entries(r, n) == Entries(s, n)
    ensures DistinctNames(s) ==> DistinctNames(r)
  {
    var created := Open(s, CACHE_NAME);
    match AddAll(PrecacheUrls(selfOrigin), fetch)
    case Some(fetched) => PutEntries(created, CACHE_NAME, fetched)
    case None => created
  }

  /** Every precache fetch succeeded with a response `addAll` accepts. */
  predicate PrecacheSucceeds(selfOrigin: string, fetch: Url -> NetworkOutcome)
  {
    forall i :: 0 <= i < |PRECACHE_ASSETS| ==> AddAllAccepts(fetch(Resolve(selfOrigin, PRECACHE_ASSETS[i])))
  }

  /** Install stores all four precache pages or none of them, and keeps whatever
      else the current cache already held. */
  lemma InstallAllOrNone(s: Store, selfOrigin: string, fetch: Url -> NetworkOutcome)
    ensures PrecacheSucceeds(selfOrigin, fetch) ==>
              forall i :: 0 <= i < |PRECACHE_ASSETS| ==>
                var u := Resolve(selfOrigin, PRECACHE_ASSETS[i]);
                u in Entries(Install(s, selfOrigin, fetch), CACHE_NAME) &&
                fetch(u) == Ok(Entries(Install(s, selfOrigin, fetch), CACHE_NAME)[u])
    ensures PrecacheSucceeds(selfOrigin, fetch) ==>
              forall u :: u in Entries(s, CACHE_NAME) && u !in PrecacheUrls(selfOrigin) ==>
                u in Entries(Install(s, selfOrigin, fetch), CACHE_NAME) &&
                Entries(Install(s, selfOrigin, fetch), CACHE_NAME)[u] == Entries(s, CACHE_NAME)[u]
    ensures !PrecacheSucceeds(selfOrigin, fetch) ==>
              Entries(Install(s, selfOrigin, fetch), CACHE_NAME) == Entries(s, CACHE_NAME)
  {
    var urls := PrecacheUrls(selfOrigin);
    PrecacheUrlsAt(selfOrigin);
    var r := Install(s, selfOrigin, fetch);
    var added := AddAll(urls, fetch);
    if PrecacheSucceeds(selfOrigin, fetch) {
      assert forall i :: 0 <= i < |urls| ==> AddAllAccepts(fetch(urls[i]));
      assert added.Some?;
      assert Entries(r, CACHE_NAME) == Entries(s, CACHE_NAME) + added.value;
      forall i | 0 <= i < |PRECACHE_ASSETS|
        ensures Resolve(selfOrigin, PRECACHE_ASSETS[i]) in Entries(r, CACHE_NAME)
      {
        assert urls[i] in added.value;
      }
    } else {
      var k :| 0 <= k < |PRECACHE_ASSETS| && !AddAllAccepts(fetch(Resolve(selfOrigin, PRECACHE_ASSETS[k])));
      assert !AddAllAccepts(fetch(urls[k]));
      assert added.None?;
    }
  }

  /** Once install has precached every page, a document request always gets a
      response: from the network, from the cache, or the offline page. */
  lemma InstalledDocumentsNeverFailOffline(s: Store, selfOrigin: string, fetch: Url -> NetworkOutcome, req: Request, net: NetworkOutcome)
    requires PrecacheSucceeds(selfOrigin, fetch)
    requires req.destination == "document"
    ensures NetworkFirst(Install(s, selfOrigin, fetch), selfOrigin, req, net).result.Resp?
  {
    InstallAllOrNone(s, selfOrigin, fetch);
    assert PRECACHE_ASSETS[3] == OFFLINE_PAGE;
    DocumentsNeverFailOffline(Install(s, selfOrigin, fetch), selfOrigin, req, net);
  }

  /** Running install again with the same network changes nothing. */
  lemma InstallIdempotent(s: Store, selfOrigin: string, fetch: Url -> NetworkOutcome)
    ensures Install(Install(s, selfOrigin, fetch), selfOrigin, fetch) == Install(s, selfOrigin, fetch)
  {
    var r := Install(s, selfOrigin, fetch);
    assert Open(r, CACHE_NAME) == r;
    match AddAll(PrecacheUrls(selfOrigin), fetch)
    case Some(fetched) => PutEntriesTwice(Open(s, CACHE_NAME), CACHE_NAME, fetched);
    case None =>
  }

  /** The stale-name filter of activate: every name other than the current one. */
  function StaleNames(names: seq<string>): (stale: seq<string>)
    ensures forall n :: n in stale <==> n in names && n != CACHE_NAME
  {
    if names == [] then []
    else (if names[0] != CACHE_NAME then [names[0]] else []) + StaleNames(names[1..])
  }

  function ToSet(names: seq<string>): set<string>
  {
    set n | n in names
  }

  /** Deleting every stale name, one after the other, keeps the current cache alone. */
  lemma WithoutStaleIsRetain(s: Store)
    ensures Without(s, ToSet(StaleNames(Names(s)))) == Retain(s, CACHE_NAME)
  {
    var gone := ToSet(StaleNames(Names(s)));
    forall i | 0 <= i < |s| ensures s[i].name in gone <==> s[i].name != CACHE_NAME {
      assert Names(s)[i] == s[i].name;
    }
    WithoutAllButOne(s, gone, CACHE_NAME);
  }

  /** After install and activate exactly one cache remains: the current one. */
  lemma InstallThenActivate(s: Store, selfOrigin: string, fetch: Url -> NetworkOutcome)
    requires DistinctNames(s)
    ensures Names(Retain(Install(s, selfOrigin, fetch), CACHE_NAME)) == [CACHE_NAME]
  {
    var r := Install(s, selfOrigin, fetch);
    RetainAtMostOne(r, CACHE_NAME);
    var a := Retain(r, CACHE_NAME);
    assert CACHE_NAME in Names(a);
    assert |Names(a)| == 1;
  }

  /** Once only the current cache exists, a document fetched with status 200 is
      served from the cache by a later cache-first lookup, without the network. */
  lemma NetworkFirstThenCacheFirst(s: Store, selfOrigin: string, req: Request, resp: Response, later: NetworkOutcome)
    requires forall n :: n in Names(s) ==> n == CACHE_NAME
    requires resp.status == 200
    ensures var o := NetworkFirst(s, selfOrigin, req, Ok(resp));
            CacheFirst(o.store, req, later) == Outcome(Resp(resp), o.store, false)
  {
    forall i | 0 <= i < |s| ensures s[i].name == CACHE_NAME {
      assert Names(s)[i] == s[i].name && Names(s)[i] in Names(s);
    }
    MatchAfterPut(s, CACHE_NAME, req.url, resp);
  }

  /** A document request never rejects once the offline page is in the current
      cache: it gets the network's response, a cached copy, or the offline page. */
  lemma DocumentsNeverFailOffline(s: Store, selfOrigin: string, req: Request, net: NetworkOutcome)
    requires req.destination == "document"
    requires Resolve(selfOrigin, OFFLINE_PAGE) in Entries(s, CACHE_NAME)
    ensures NetworkFirst(s, selfOrigin, req, net).result.Resp?
  {
  }

  /** The strategies never invent a response: what they return came from the network
      or from some cache of the store they started with. */
  lemma StrategiesReturnNetworkOrStored(s: Store, selfOrigin: string, req: Request, net: NetworkOutcome)
    ensures var o := NetworkFirst(s, selfOrigin, req, net);
            o.result.Resp? ==> net == Ok(o.result.response) || exists i :: 0 <= i < |s| && o.result.response in s[i].entries.Values
    ensures var o := CacheFirst(s, req, net);
            o.result.Resp? ==> net == Ok(o.result.response) || exists i :: 0 <= i < |s| && o.result.response in s[i].entries.Values
  {
  }

  /** Whether every response `t` holds that `s` did not hold under the same cache
      name and URL has status exactly 200. */
  ghost predicate AddsOnlyStatus200(s: Store, t: Store)
  {
    forall n, u :: u in Entries(t, n) && (u !in Entries(s, n) || Entries(s, n)[u] != Entries(t, n)[u]) ==>
      Entries(t, n)[u].status == 200
  }

  /** The strategies only ever add or replace responses with status exactly 200. */
  lemma StrategiesStoreOnlyStatus200(s: Store, selfOrigin: string, req: Request, net: NetworkOutcome)
    ensures AddsOnlyStatus200(s, NetworkFirst(s, selfOrigin, req, net).store)
    ensures AddsOnlyStatus200(s, CacheFirst(s, req, net).store)
  {
  }

  /** `caches.match` searches every cache in creation order, so while an older cache
      that comes first still holds a URL, network-first storing a fresh copy under
      `CACHE_NAME` changes nothing `caches.match` finds: cache-first keeps serving the
      older copy, although the current cache holds the fresh one. */
  lemma StaleCacheShadowsFreshCopy(s: Store, selfOrigin: string, req: Request, resp: Response, later: NetworkOutcome, i: int)
    requires 0 <= i < |s| && MatchedAt(s, req.url, i)
    requires forall j :: 0 <= j <= i ==> s[j].name != CACHE_NAME
    ensures var o := NetworkFirst(s, selfOrigin, req, Ok(resp));
            Match(o.store, req.url) == Match(s, req.url) &&
            CacheFirst(o.store, req, later).result == Resp(s[i].entries[req.url]) &&
            (resp.status == 200 ==> Entries(o.store, CACHE_NAME)[req.url] == resp)
  {
    var o := NetworkFirst(s, selfOrigin, req, Ok(resp));
    if resp.status == 200 {
      PutIntoCurrentBehindMatch(s, req.url, resp, i);
    }
    MatchedAtIsMatch(s, req.url, i);
  }

  lemma PutIntoCurrentBehindMatch(s: Store, url: Url, resp: Response, i: int)
    requires 0 <= i < |s| && MatchedAt(s, url, i)
    requires forall j :: 0 <= j <= i ==> s[j].name != CACHE_NAME
    ensures Match(OpenAndPut(s, CACHE_NAME, url, resp), url) == Match(s, url)
  {
    var t := Open(s, CACHE_NAME);
    assert forall j :: 0 <= j < |s| ==> t[j] == s[j];
    assert MatchedAt(t, url, i);
    PutBehindMatchKeepsMatch(t, CACHE_NAME, map[url := resp], url, i);
  }
}
