/** The worker's event handlers, updating the process-wide cache store in place. */
module ServiceWorker {
  import opened Wrappers
  import opened Http
  import opened CacheStorage
  import opened Policy

  /** What the fetch handler does with an event: leave it to the browser, or
      answer it through `respondWith` with a strategy's result. */
  datatype FetchReply = NotIntercepted | Responded(result: StrategyResult)

  /** The `data` of a message event: a falsy value, or an object whose `type`
      field is a string (`None` when it is absent or not a string). */
  datatype MessageData = Falsy | Object(typeField: Option<string>)

  predicate IsSkipWaiting(data: MessageData)
  {
    data.Object? && data.typeField == Some("SKIP_WAITING")
  }

  class Worker {
    /** `self.location.origin`. */
    const origin: string
    /** The CacheStorage of the origin, shared with earlier worker versions. */
    var store: Store
    /** Whether `self.skipWaiting()` has been called. */
    var skipWaitingRequested: bool

    ghost predicate Valid()
      reads this
    {
      DistinctNames(store)
    }

    constructor (origin: string, existing: Store)
      requires DistinctNames(existing)
      ensures Valid()
      ensures this.origin == origin && store == existing && !skipWaitingRequested
    {
      this.origin := origin;
      store := existing;
      skipWaitingRequested := false;
    }

    /** The install handler: precache, swallow a failure, then skip waiting. */
    method OnInstall(fetch: Url -> NetworkOutcome)
      requires Valid()
      modifies this
      ensures Valid()
      ensures store == Install(old(store), origin, fetch)
      ensures skipWaitingRequested
    {
      ghost var before := store;
      store := Open(store, CACHE_NAME);
      var added := AddAll(PrecacheUrls(origin), fetch);
      if added.Some? {
        store := PutEntries(store, CACHE_NAME, added.value);
      }
      assert store == Install(before, origin, fetch);
      skipWaitingRequested := true;
    }

    /** The activate handler: delete every cache not named exactly `CACHE_NAME`. */
    method OnActivate()
      requires Valid()
      modifies this
      ensures Valid()
      ensures store == Retain(old(store), CACHE_NAME)
      ensures skipWaitingRequested == old(skipWaitingRequested)
    {
      var stale := StaleNames(Names(store));
      ghost var before := store;
      var i := 0;
      assert ToSet(stale[..0]) == {};
      WithoutNothing(before);
      while i < |stale|
        invariant 0 <= i <= |stale|
        invariant store == Without(before, ToSet(stale[..i]))
        invariant skipWaitingRequested == old(skipWaitingRequested)
      {
        DeleteWithout(before, ToSet(stale[..i]), stale[i]);
        assert ToSet(stale[..i + 1]) == ToSet(stale[..i]) + {stale[i]} by {
          assert stale[..i + 1] == stale[..i] + [stale[i]];
        }
        store := Delete(store, stale[i]);
        i := i + 1;
      }
      assert stale[..i] == stale;
      WithoutStaleIsRetain(before);
      RetainAtMostOne(before, CACHE_NAME);
    }

    /** `networkFirstStrategy`. */
    method NetworkFirstStrategy(req: Request, net: NetworkOutcome) returns (res: StrategyResult)
      requires Valid()
      modifies this
      ensures Valid()
      ensures res == NetworkFirst(old(store), origin, req, net).result
      ensures store == NetworkFirst(old(store), origin, req, net).store
      ensures skipWaitingRequested == old(skipWaitingRequested)
    {
      match net {
        case Ok(resp) =>
          if resp.status == 200 {
            store := OpenAndPut(store, CACHE_NAME, req.url, resp);
          }
          res := Resp(resp);
        case Fail(error) =>
          var cached := Match(store, req.url);
          if cached.Some? {
            res := Resp(cached.value);
          } else if req.destination == "document" {
            res := FromMatch(Match(store, Resolve(origin, OFFLINE_PAGE)));
          } else {
            res := Err(error);
          }
      }
    }

    /** `cacheFirstStrategy`. */
    method CacheFirstStrategy(req: Request, net: NetworkOutcome) returns (res: StrategyResult)
      requires Valid()
      modifies this
      ensures Valid()
      ensures res == CacheFirst(old(store), req, net).result
      ensures store == CacheFirst(old(store), req, net).store
      ensures skipWaitingRequested == old(skipWaitingRequested)
    {
      var cached := Match(store, req.url);
      if cached.Some? {
        res := Resp(cached.value);
        return;
      }
      match net {
        case Ok(resp) =>
          if resp.status == 200 {
            store := OpenAndPut(store, CACHE_NAME, req.url, resp);
          }
          res := Resp(resp);
        case Fail(error) =>
          res := Err(error);
      }
    }

    /** The fetch handler: pass non-GET and cross-origin requests through untouched,
        send documents to network-first and everything else to cache-first. */
    method OnFetch(req: Request, net: NetworkOutcome) returns (reply: FetchReply)
      requires Valid()
      modifies this
      ensures Valid()
      ensures skipWaitingRequested == old(skipWaitingRequested)
      ensures req.httpMethod != "GET" || req.origin != origin ==>
                reply == NotIntercepted && store == old(store)
      ensures req.httpMethod == "GET" && req.origin == origin && req.destination == "document" ==>
                reply == Responded(NetworkFirst(old(store), origin, req, net).result) &&
                store == NetworkFirst(old(store), origin, req, net).store
      ensures req.httpMethod == "GET" && req.origin == origin && req.destination != "document" ==>
                reply == Responded(CacheFirst(old(store), req, net).result) &&
                store == CacheFirst(old(store), req, net).store
    {
      match Route(origin, req) {
        case None =>
          reply := NotIntercepted;
        case Some(NetworkFirstRoute) =>
          var res := NetworkFirstStrategy(req, net);
          reply := Responded(res);
        case Some(CacheFirstRoute) =>
          var res := CacheFirstStrategy(req, net);
          reply := Responded(res);
      }
    }

    /** The message handler: only `{type: "SKIP_WAITING"}` has an effect. */
    method OnMessage(data: MessageData)
      modifies this
      ensures skipWaitingRequested == (old(skipWaitingRequested) || IsSkipWaiting(data))
      ensures store == old(store)
    {
      if IsSkipWaiting(data) {
        skipWaitingRequested := true;
      }
    }
  }
}
