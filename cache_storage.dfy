/** The browser's CacheStorage, as the worker uses it: an ordered list of named caches,
    each a map from request URL to stored response. Order matters because `caches.match`
    searches every cache, oldest first, and returns the first hit. */
module CacheStorage {
  import opened Wrappers
  import opened Http

  datatype NamedCache = NamedCache(name: string, entries: map<Url, Response>)

  type Store = seq<NamedCache>

  /** `caches.keys()`: the cache names, in creation order. */
  function Names(s: Store): (ns: seq<string>)
    ensures |ns| == |s|
    ensures forall i :: 0 <= i < |s| ==> ns[i] == s[i].name
  {
    if s == [] then [] else [s[0].name] + Names(s[1..])
  }

  predicate Distinct(ns: seq<string>)
  {
    forall i, j :: 0 <= i < j < |ns| ==> ns[i] != ns[j]
  }

  /** CacheStorage never holds two caches of the same name. */
  predicate DistinctNames(s: Store)
  {
    Distinct(Names(s))
  }

  /** The contents of the cache called `name` (empty when there is none). */
  function Entries(s: Store, name: string): map<Url, Response>
  {
    if s == [] then map[]
    else if s[0].name == name then s[0].entries
    else Entries(s[1..], name)
  }

  /** `caches.match(url)`: the response stored under `url` in the first cache, in
      creation order, that has one; `None` plays the part of `undefined`. */
  function Match(s: Store, url: Url): (r: Option<Response>)
    ensures r.None? <==> forall i :: 0 <= i < |s| ==> url !in s[i].entries
    ensures r.Some? ==> exists i :: 0 <= i < |s| && MatchedAt(s, url, i) && s[i].entries[url] == r.value
  {
    if s == [] then None
    else if url in s[0].entries then
      assert MatchedAt(s, url, 0);
      Some(s[0].entries[url])
    else
      assert forall i :: 0 <= i < |s| - 1 && MatchedAt(s[1..], url, i) ==> MatchedAt(s, url, i + 1);
      Match(s[1..], url)
  }

  /** Cache `i` holds `url` and no earlier cache does. */
  ghost predicate MatchedAt(s: Store, url: Url, i: int)
    requires 0 <= i < |s|
  {
    url in s[i].entries && forall j :: 0 <= j < i ==> url !in s[j].entries
  }

  /** `caches.open(name)`: an existing cache is reused; otherwise an empty one is
      created after all the others. No stored response changes. */
  function Open(s: Store, name: string): (r: Store)
    ensures Names(r) == if name in Names(s) then Names(s) else Names(s) + [name]
    ensures forall n :: Entries(r, n) == Entries(s, n)
    ensures forall u :: Match(r, u) == Match(s, u)
    ensures DistinctNames(s) ==> DistinctNames(r)
  {
    if name in Names(s) then s
    else
      AppendEmptyCache(s, name);
      s + [NamedCache(name, map[])]
  }

  lemma {:induction false} AppendEmptyCache(s: Store, name: string)
    requires name !in Names(s)
    ensures Names(s + [NamedCache(name, map[])]) == Names(s) + [name]
    ensures forall n :: Entries(s + [NamedCache(name, map[])], n) == Entries(s, n)
    ensures forall u :: Match(s + [NamedCache(name, map[])], u) == Match(s, u)
  {
    var c := NamedCache(name, map[]);
    if s != [] {
      assert (s + [c])[1..] == s[1..] + [c];
      AppendEmptyCache(s[1..], name);
    }
  }

  /** `cache.put` of every pair of `m` into the cache called `name`: later pairs
      replace earlier ones under the same URL, and no other cache changes. */
  function PutEntries(s: Store, name: string, m: map<Url, Response>): (r: Store)
    requires name in Names(s)
    ensures Names(r) == Names(s)
    ensures Entries(r, name) == Entries(s, name) + m
    ensures forall n :: n != name ==> Entries(r, n) == Entries(s, n)
  {
    if s[0].name == name then [s[0].(entries := s[0].entries + m)] + s[1..]
    else [s[0]] + PutEntries(s[1..], name, m)
  }

  /** `caches.open(name)` followed by `cache.put(url, resp)`. */
  function OpenAndPut(s: Store, name: string, url: Url, resp: Response): (r: Store)
    ensures Names(r) == Names(Open(s, name))
    ensures Entries(r, name) == Entries(s, name)[url := resp]
    ensures forall n :: n != name ==> Entries(r, n) == Entries(s, n)
    ensures DistinctNames(s) ==> DistinctNames(r)
  {
    var created := Open(s, name);
    var before := Entries(s, name);
    assert Entries(created, name) == before;
    assert before + map[url := resp] == before[url := resp];
    PutEntries(created, name, map[url := resp])
  }

  /** `caches.delete(name)`: the cache of that name goes, every other stays. */
  function Delete(s: Store, name: string): (r: Store)
    ensures name !in Names(r)
    ensures forall n :: n != name ==> (n in Names(r) <==> n in Names(s))
    ensures forall n :: n != name ==> Entries(r, n) == Entries(s, n)
  {
    if s == [] then []
    else if s[0].name == name then Delete(s[1..], name)
    else [s[0]] + Delete(s[1..], name)
  }

  /** The caches whose names are not in `gone`, in their order. */
  ghost function Without(s: Store, gone: set<string>): Store
  {
    if s == [] then []
    else if s[0].name in gone then Without(s[1..], gone)
    else [s[0]] + Without(s[1..], gone)
  }

  lemma {:induction false} WithoutNothing(s: Store)
    ensures Without(s, {}) == s
  {
    if s != [] {
      WithoutNothing(s[1..]);
    }
  }

  /** The caches called exactly `keep`, in their order. */
  function Retain(s: Store, keep: string): (r: Store)
    ensures forall n :: n in Names(r) ==> n == keep
    ensures keep in Names(r) <==> keep in Names(s)
    ensures Entries(r, keep) == Entries(s, keep)
  {
    if s == [] then []
    else if s[0].name == keep then [s[0]] + Retain(s[1..], keep)
    else Retain(s[1..], keep)
  }

  lemma {:induction false} RetainIdempotent(s: Store, keep: string)
    ensures Retain(Retain(s, keep), keep) == Retain(s, keep)
  {
    if s != [] {
      RetainIdempotent(s[1..], keep);
      if s[0].name == keep {
        assert ([s[0]] + Retain(s[1..], keep))[1..] == Retain(s[1..], keep);
      }
    }
  }

  /** With distinct names, at most one cache survives, and exactly one when a cache
      called `keep` existed. */
  lemma {:induction false} RetainAtMostOne(s: Store, keep: string)
    requires DistinctNames(s)
    ensures |Retain(s, keep)| == if keep in Names(s) then 1 else 0
  {
    if s != [] {
      assert Names(s[1..]) == Names(s)[1..];
      RetainAtMostOne(s[1..], keep);
      if s[0].name == keep {
        assert keep !in Names(s[1..]) by {
          forall j | 0 <= j < |Names(s[1..])| ensures Names(s[1..])[j] != keep {
            assert Names(s)[0] == keep && Names(s)[j + 1] == Names(s[1..])[j];
          }
        }
      }
    }
  }

  /** Deleting one more name from what is left is deleting that name as well. */
  lemma {:induction false} DeleteWithout(s: Store, gone: set<string>, name: string)
    ensures Delete(Without(s, gone), name) == Without(s, gone + {name})
  {
    if s != [] {
      DeleteWithout(s[1..], gone, name);
      if s[0].name !in gone {
        assert ([s[0]] + Without(s[1..], gone))[1..] == Without(s[1..], gone);
      }
    }
  }

  /** Dropping exactly the caches whose names differ from `keep` retains `keep`. */
  lemma {:induction false} WithoutAllButOne(s: Store, gone: set<string>, keep: string)
    requires forall i :: 0 <= i < |s| ==> (s[i].name in gone <==> s[i].name != keep)
    ensures Without(s, gone) == Retain(s, keep)
  {
    if s != [] {
      assert s[0].name in gone <==> s[0].name != keep;
      WithoutAllButOne(s[1..], gone, keep);
    }
  }

  /** What `cache.addAll` accepts: a response with an ok status (200-299) other than 206. */
  predicate AddAllAccepts(outcome: NetworkOutcome)
  {
    outcome.Ok? && 200 <= outcome.response.status <= 299 && outcome.response.status != 206
  }

  /** The entries `cache.addAll(urls)` stores: all of them when the URLs are distinct
      and every fetch succeeds with an acceptable response, otherwise none (the
      promise rejects; a repeated request is an InvalidStateError). */
  function AddAll(urls: seq<Url>, fetch: Url -> NetworkOutcome): (r: Option<map<Url, Response>>)
    ensures r.Some? <==> Distinct(urls) && forall i :: 0 <= i < |urls| ==> AddAllAccepts(fetch(urls[i]))
    ensures r.Some? ==> r.value.Keys == set u | u in urls
    ensures r.Some? ==> forall u :: u in r.value ==> fetch(u) == Ok(r.value[u])
  {
    if Distinct(urls) then FetchAll(urls, fetch) else None
  }

  /** The fetch half of `addAll`: every response, or `None` at the first one refused. */
  function FetchAll(urls: seq<Url>, fetch: Url -> NetworkOutcome): (r: Option<map<Url, Response>>)
    ensures r.Some? <==> forall i :: 0 <= i < |urls| ==> AddAllAccepts(fetch(urls[i]))
    ensures r.Some? ==> r.value.Keys == set u | u in urls
    ensures r.Some? ==> forall u :: u in r.value ==> fetch(u) == Ok(r.value[u])
  {
    if urls == [] then Some(map[])
    else if !AddAllAccepts(fetch(urls[0])) then None
    else
      match FetchAll(urls[1..], fetch)
      case None => None
      case Some(rest) =>
        assert forall i :: 1 <= i < |urls| ==> urls[i] == urls[1..][i - 1];
        assert (set u | u in urls) == (set u | u in urls[1..]) + {urls[0]};
        Some(rest[urls[0] := fetch(urls[0]).response])
  }

  /** Writing the same entries into the same cache twice is writing them once. */
  lemma {:induction false} PutEntriesTwice(s: Store, name: string, m: map<Url, Response>)
    requires name in Names(s)
    ensures PutEntries(PutEntries(s, name, m), name, m) == PutEntries(s, name, m)
  {
    if s[0].name == name {
      var c := s[0].(entries := s[0].entries + m);
      assert c.entries + m == c.entries;
    } else {
      PutEntriesTwice(s[1..], name, m);
    }
  }

  /** A stored entry is found by `caches.match` (perhaps in an earlier cache). */
  lemma {:induction false} EntriesAreMatched(s: Store, name: string, url: Url)
    requires url in Entries(s, name)
    ensures Match(s, url).Some?
  {
    if s[0].name != name {
      EntriesAreMatched(s[1..], name, url);
    }
  }

  /** Round trip: once a response is put into cache `name`, `caches.match` returns it,
      provided no cache of another name also holds that URL. */
  lemma {:induction false} MatchAfterPut(s: Store, name: string, url: Url, resp: Response)
    requires forall i :: 0 <= i < |s| && s[i].name != name ==> url !in s[i].entries
    ensures Match(OpenAndPut(s, name, url, resp), url) == Some(resp)
  {
    var t := Open(s, name);
    assert forall i :: 0 <= i < |t| && t[i].name != name ==> url !in t[i].entries;
    MatchAfterPutEntries(t, name, url, resp);
  }

  lemma {:induction false} MatchAfterPutEntries(t: Store, name: string, url: Url, resp: Response)
    requires name in Names(t)
    requires forall i :: 0 <= i < |t| && t[i].name != name ==> url !in t[i].entries
    ensures Match(PutEntries(t, name, map[url := resp]), url) == Some(resp)
  {
    if t[0].name != name {
      MatchAfterPutEntries(t[1..], name, url, resp);
      var r := PutEntries(t, name, map[url := resp]);
      assert r[0] == t[0] && r[1..] == PutEntries(t[1..], name, map[url := resp]);
    }
  }

  /** A put into cache `name` does not change what `caches.match(url)` finds when an
      earlier cache of another name already holds `url`. */
  lemma {:induction false} PutBehindMatchKeepsMatch(t: Store, name: string, m: map<Url, Response>, url: Url, i: int)
    requires name in Names(t)
    requires 0 <= i < |t| && MatchedAt(t, url, i)
    requires forall j :: 0 <= j <= i ==> t[j].name != name
    ensures Match(PutEntries(t, name, m), url) == Match(t, url)
  {
    assert t[0].name != name;
    var r := PutEntries(t, name, m);
    assert r[0] == t[0] && r[1..] == PutEntries(t[1..], name, m);
    if i > 0 {
      ShiftMatchedAt(t, name, url, i);
      PutBehindMatchKeepsMatch(t[1..], name, m, url, i - 1);
    }
  }

  lemma ShiftMatchedAt(t: Store, name: string, url: Url, i: int)
    requires 0 < i < |t| && MatchedAt(t, url, i)
    requires forall j :: 0 <= j <= i ==> t[j].name != name
    ensures MatchedAt(t[1..], url, i - 1)
    ensures forall j :: 0 <= j <= i - 1 ==> t[1..][j].name != name
  {
  }

  /** The cache `MatchedAt` names is the one whose response `caches.match` returns. */
  lemma {:induction false} MatchedAtIsMatch(s: Store, url: Url, i: int)
    requires 0 <= i < |s| && MatchedAt(s, url, i)
    ensures Match(s, url) == Some(s[i].entries[url])
  {
    if i > 0 {
      assert url !in s[0].entries;
      assert MatchedAt(s[1..], url, i - 1) by {
        assert forall j :: 0 <= j < i - 1 ==> s[1..][j] == s[j + 1];
      }
      MatchedAtIsMatch(s[1..], url, i - 1);
    }
  }
}
