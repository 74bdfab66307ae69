/**
 * public/service-worker.js: the worker's install, activate, fetch and
 * message handlers, acting on the origin's CacheStorage.
 *
 * CacheStorage follows sections 5.4 (Cache) and 5.5 (CacheStorage) of the
 * W3C Service Workers specification: an ordered map from cache names to
 * caches (creation order), each cache a map from request URL to response.
 * Network results are parameters (`None` is a rejected `fetch`), and the
 * promise chains run as sequential steps.
 */
module ServiceWorker {
  import opened Wrappers
  import Text
  import Seqs

  /** The prefix every cache of this application carries. */
  const CachePrefix: string := "polivis-cache-"

  /** `CACHE_NAME` for a worker whose `APP_VERSION` is `version`. */
  function CacheName(version: string): (r: string)
    ensures Text.StartsWith(r, CachePrefix) && r[|CachePrefix|..] == version
  {
    CachePrefix + version
  }

  /** A response, opaque apart from its HTTP status. */
  datatype Response = Response(status: int, body: string)

  datatype Request = Request(url: string, httpMethod: string, mode: string, destination: string)

  datatype NamedCache = NamedCache(name: string, entries: map<string, Response>)

  /** The CacheStorage name-to-cache map, in creation order. */
  type Storage = seq<NamedCache>

  /** `caches.keys()`: the cache names in creation order. */
  function Keys(s: Storage): (r: seq<string>)
    ensures |r| == |s| && forall i :: 0 <= i < |s| ==> r[i] == s[i].name
  {
    if s == [] then [] else [s[0].name] + Keys(s[1..])
  }

  predicate DistinctNames(s: Storage) {
    forall i, j :: 0 <= i < j < |s| ==> s[i].name != s[j].name
  }

  /** The position of the cache called `name`. */
  function Find(s: Storage, name: string): (r: Option<nat>)
    ensures r.Some? ==> r.value < |s| && s[r.value].name == name
    ensures r.None? <==> forall c :: c in s ==> c.name != name
    decreases |s|
  {
    if s == [] then None
    else if s[0].name == name then Some(0)
    else
      match Find(s[1..], name)
      case None => None
      case Some(k) => Some(k + 1)
  }

  /** `caches.open(name)`: a cache of that name exists afterwards; a new one is empty and last. */
  function OpenCache(s: Storage, name: string): (r: Storage)
    ensures Find(r, name).Some?
    ensures DistinctNames(s) ==> DistinctNames(r)
    ensures forall c :: c in s ==> c in r
    ensures forall c :: c in r ==> c in s || c == NamedCache(name, map[])
  {
    if Find(s, name).Some? then s else s + [NamedCache(name, map[])]
  }

  /** `url.protocol`: the scheme and its colon (empty when the URL has none). */
  function Protocol(url: string): (r: string)
    ensures Text.StartsWith(url, r)
  {
    match Text.IndexOf(url, ":")
    case None => ""
    case Some(i) =>
      assert url[i..i + 1] == ":";
      url[..i + 1]
  }

  /** An http(s) URL: one whose scheme is `http` or `https` (see `HttpUrlProtocol`). */
  predicate IsHttpUrl(url: string) {
    Text.StartsWith(url, "http:") || Text.StartsWith(url, "https:")
  }

  /** The first colon of a URL that starts with a colon-free `scheme` and a colon ends the scheme. */
  lemma ProtocolOfScheme(url: string, scheme: string)
    requires Text.StartsWith(url, scheme + ":") && forall i :: 0 <= i < |scheme| ==> scheme[i] != ':'
    ensures Protocol(url) == scheme + ":"
  {
    var n := |scheme|;
    assert url[n] == ':' && url[..n] == scheme by { assert url[..n + 1] == scheme + ":"; }
    assert Text.OccursAt(url, ":", n) by { assert url[n..n + 1] == [':']; }
    assert Text.Contains(url, ":");
    var k := Text.IndexOf(url, ":").value;
    assert k <= n;
    assert url[k..k + 1] == ":";
    assert url[k] == ':';
    assert forall i :: 0 <= i < n ==> url[i] == scheme[i];
  }

  /** `IsHttpUrl` is exactly "`url.protocol` is `http:` or `https:`". */
  lemma HttpUrlProtocol(url: string)
    ensures IsHttpUrl(url) <==> Protocol(url) == "http:" || Protocol(url) == "https:"
  {
    if Text.StartsWith(url, "http:") {
      assert "http:" == "http" + ":";
      ProtocolOfScheme(url, "http");
    } else if Text.StartsWith(url, "https:") {
      assert "https:" == "https" + ":";
      ProtocolOfScheme(url, "https");
    }
  }

  /** The fetch handler intercepts every http(s) request. */
  lemma HttpIsIntercepted(req: Request)
    requires IsHttpUrl(req.url)
    ensures Intercepted(req)
  {
    HttpUrlProtocol(req.url);
    assert Text.StartsWith("http:", "http") && Text.StartsWith("https:", "http");
  }

  /** A URL that starts with an http(s) URL is one too. */
  lemma HttpUrlExtend(url: string, rest: string)
    requires IsHttpUrl(url)
    ensures IsHttpUrl(url + rest)
  {
    if Text.StartsWith(url, "http:") {
      assert (url + rest)[..5] == url[..5];
    } else {
      assert (url + rest)[..6] == url[..6];
    }
  }

  /** `Cache.put` rejects non-GET requests, non-http(s) URLs and status 206 (section 5.4.6). */
  predicate PutAllowed(req: Request, resp: Response) {
    req.httpMethod == "GET" && IsHttpUrl(req.url) && resp.status != 206
  }

  /**
   * `cache.put(req, resp)` on the cache called `name`. Both call sites leave
   * the returned promise unobserved, so a rejected put changes nothing.
   */
  function PutResponse(s: Storage, name: string, req: Request, resp: Response): (r: Storage)
    ensures |r| == |s| && Keys(r) == Keys(s)
    ensures forall i :: 0 <= i < |s| && s[i].name != name ==> r[i] == s[i]
  {
    match Find(s, name)
    case None => s
    case Some(k) =>
      if PutAllowed(req, resp) then s[k := NamedCache(name, s[k].entries[req.url := resp])] else s
  }

  /**
   * `cache.match(req)` on the cache called `name`: a non-GET request matches
   * nothing; with distinct names, a GET finds the cache's entry exactly when
   * the cache holds the URL.
   */
  function MatchIn(s: Storage, name: string, url: string, isGet: bool): (r: Option<Response>)
    ensures r.Some? ==> isGet
    ensures r.Some? ==> exists c :: c in s && c.name == name && url in c.entries && c.entries[url] == r.value
    ensures DistinctNames(s) ==> forall c :: c in s && c.name == name ==>
      r == if isGet && url in c.entries then Some(c.entries[url]) else None
  {
    match Find(s, name)
    case None => None
    case Some(k) =>
      assert DistinctNames(s) ==> forall c :: c in s && c.name == name ==> c == s[k] by {
        forall c | c in s && c.name == name && DistinctNames(s) ensures c == s[k] {
          var i :| 0 <= i < |s| && s[i] == c;
        }
      }
      if isGet && url in s[k].entries then Some(s[k].entries[url]) else None
  }

  /** `caches.match(req)`: the entry of the first cache, in creation order, that holds the URL. */
  function MatchAll(s: Storage, url: string, isGet: bool): (r: Option<Response>)
    ensures r.Some? <==> isGet && exists c :: c in s && url in c.entries
    ensures r.Some? ==> exists k :: 0 <= k < |s| && url in s[k].entries && s[k].entries[url] == r.value &&
                                    forall j :: 0 <= j < k ==> url !in s[j].entries
    decreases |s|
  {
    if !isGet || s == [] then None
    else if url in s[0].entries then Some(s[0].entries[url])
    else
      var r := MatchAll(s[1..], url, isGet);
      assert forall c :: c in s ==> c == s[0] || c in s[1..];
      if r.Some? then
        var k :| 0 <= k < |s[1..]| && url in s[1..][k].entries && s[1..][k].entries[url] == r.value &&
                 forall j :: 0 <= j < k ==> url !in s[1..][j].entries;
        assert forall j :: 0 <= j < k + 1 ==> url !in s[j].entries by {
          forall j | 0 <= j < k + 1 ensures url !in s[j].entries {
            if j > 0 { assert s[j] == s[1..][j - 1]; }
          }
        }
        r
      else r
  }

  // ---------------------------------------------------------------- install

  /** `new URL(rel, base).href` for a one-segment relative path: `base` up to its last '/', then `rel`. */
  function Resolve(rel: string, base: string): string {
    DirectoryOf(base) + rel
  }

  function DirectoryOf(url: string): (r: string)
    ensures Text.StartsWith(url, r)
    decreases |url|
  {
    if url == [] || url[|url| - 1] == '/' then url
    else
      var r := DirectoryOf(url[..|url| - 1]);
      assert url[..|url| - 1][..|r|] == url[..|r|];
      r
  }

  /** `urlsToCache`: the scope, its index.html and its manifest.json. */
  function UrlsToCache(base: string): seq<string> {
    [base, Resolve("index.html", base), Resolve("manifest.json", base)]
  }

  /** For a scope ending in '/', the three URLs are the scope with the two file names appended, all different. */
  lemma UrlsToCacheUnderScope(base: string)
    requires |base| > 0 && base[|base| - 1] == '/'
    ensures UrlsToCache(base) == [base, base + "index.html", base + "manifest.json"]
    ensures Seqs.NoDup(UrlsToCache(base))
  {
    var i, m := base + "index.html", base + "manifest.json";
    assert |i| != |base| && |m| != |base|;
    assert i[|base|] == 'i' && m[|base|] == 'm';
  }

  /** Statuses `Cache.addAll` stores: an ok status (200-299) other than 206 (section 5.4.4). */
  predicate Storable(resp: Response) {
    200 <= resp.status <= 299 && resp.status != 206
  }

  /**
   * `cache.addAll(urls)` succeeds when no URL repeats, every URL is http(s),
   * and every fetch succeeds with a storable status; otherwise nothing is stored.
   */
  predicate AddAllSucceeds(urls: seq<string>, network: map<string, Response>) {
    Seqs.NoDup(urls) &&
    forall u :: u in urls ==> IsHttpUrl(u) && u in network && Storable(network[u])
  }

  /** The entries of a cache after a successful `addAll`. */
  function AddAllEntries(entries: map<string, Response>, urls: seq<string>, network: map<string, Response>): (r: map<string, Response>)
    requires forall u :: u in urls ==> u in network
    ensures r.Keys == entries.Keys + set u | u in urls
    ensures forall u :: u in urls ==> r[u] == network[u]
    ensures forall u :: u in entries && u !in urls ==> r[u] == entries[u]
  {
    map u | u in entries.Keys + (set u | u in urls) :: if u in urls then network[u] else entries[u]
  }

  /**
   * The storage after the install handler: the current cache is withCache
   * (created when absent) and the batch is stored all-or-nothing. A failed
   * batch is caught and only logged.
   */
  function Installed(s: Storage, name: string, urls: seq<string>, network: map<string, Response>): (r: Storage)
    ensures Find(r, name).Some?
    ensures Keys(r) == Keys(OpenCache(s, name))
    ensures forall c :: c in s && c.name != name ==> c in r
  {
    var withCache := OpenCache(s, name);
    if AddAllSucceeds(urls, network) then
      var k := Find(withCache, name).value;
      var r := withCache[k := NamedCache(name, AddAllEntries(withCache[k].entries, urls, network))];
      assert Keys(r) == Keys(withCache) by {
        assert forall i :: 0 <= i < |r| ==> r[i].name == withCache[i].name;
      }
      assert forall c :: c in s && c.name != name ==> c in r by {
        forall c | c in s && c.name != name ensures c in r {
          var i :| 0 <= i < |withCache| && withCache[i] == c;
          assert r[i] == c;
        }
      }
      r
    else withCache
  }

  /** Replacing the entries of the cache at index `k` keeps every name in place and every other cache. */
  lemma ReplaceEntries(o: Storage, k: nat, entries: map<string, Response>)
    requires k < |o| && DistinctNames(o)
    ensures var r := o[k := NamedCache(o[k].name, entries)];
      && Keys(r) == Keys(o)
      && DistinctNames(r)
      && Find(r, o[k].name) == Some(k)
      && (forall c :: c in o && c.name != o[k].name ==> c in r)
  {
    var r := o[k := NamedCache(o[k].name, entries)];
    assert forall i :: 0 <= i < |r| ==> r[i].name == o[i].name;
    assert Keys(r) == Keys(o);
    forall c | c in o && c.name != o[k].name ensures c in r {
      var i :| 0 <= i < |o| && o[i] == c;
      assert r[i] == c;
    }
  }

  /**
   * Install: afterwards the current cache exists; when the batch succeeds it
   * maps every URL of the batch to its fetched response; when it fails the
   * storage is exactly what opening the cache made it; no other cache changes.
   */
  lemma InstallEffect(s: Storage, name: string, urls: seq<string>, network: map<string, Response>)
    requires DistinctNames(s)
    ensures var r := Installed(s, name, urls, network);
      && DistinctNames(r)
      && Find(r, name).Some?
      && (AddAllSucceeds(urls, network) ==>
            forall u :: u in urls ==> MatchIn(r, name, u, true) == Some(network[u]))
      && (!AddAllSucceeds(urls, network) ==> r == OpenCache(s, name))
      && (forall c :: c in s && c.name != name ==> c in r)
  {
    var withCache := OpenCache(s, name);
    if AddAllSucceeds(urls, network) {
      var k := Find(withCache, name).value;
      ReplaceEntries(withCache, k, AddAllEntries(withCache[k].entries, urls, network));
    }
  }

  /** A batch stored into an empty cache holds exactly the fetched responses. */
  lemma AddAllIntoEmpty(urls: seq<string>, network: map<string, Response>)
    requires network.Keys == set u | u in urls
    ensures AddAllEntries(map[], urls, network) == network
  {
  }

  /** Installing into empty storage with a successful batch leaves one cache with the batch's entries. */
  lemma InstallIntoEmpty(name: string, urls: seq<string>, network: map<string, Response>)
    requires AddAllSucceeds(urls, network)
    ensures Installed([], name, urls, network) == [NamedCache(name, AddAllEntries(map[], urls, network))]
  {
    assert OpenCache([], name) == [NamedCache(name, map[])];
  }

  /** End-to-end: a fresh install with all three URLs fetchable leaves one cache holding exactly those entries. */
  lemma FreshInstall(version: string, base: string, r1: Response, r2: Response, r3: Response)
    requires |base| > 0 && base[|base| - 1] == '/' && IsHttpUrl(base)
    requires Storable(r1) && Storable(r2) && Storable(r3)
    ensures var network := map[base := r1, base + "index.html" := r2, base + "manifest.json" := r3];
      Installed([], CacheName(version), UrlsToCache(base), network) ==
        [NamedCache(CacheName(version), network)]
  {
    UrlsToCacheUnderScope(base);
    HttpUrlExtend(base, "index.html");
    HttpUrlExtend(base, "manifest.json");
    var network := map[base := r1, base + "index.html" := r2, base + "manifest.json" := r3];
    var urls := UrlsToCache(base);
    InstallIntoEmpty(CacheName(version), urls, network);
    AddAllIntoEmpty(urls, network);
  }

  // --------------------------------------------------------------- activate

  /** A cache activate deletes: one of this application's caches other than the current one. */
  predicate Stale(name: string, current: string) {
    name != current && Text.StartsWith(name, CachePrefix)
  }

  /** The storage with the caches named in `doomed` deleted. */
  function Without(s: Storage, doomed: set<string>): Storage
    decreases |s|
  {
    if s == [] then []
    else (if s[0].name in doomed then [] else [s[0]]) + Without(s[1..], doomed)
  }

  /** `Without` keeps exactly the caches whose names are not doomed. */
  lemma {:induction false} WithoutMembers(s: Storage, doomed: set<string>)
    ensures forall c :: c in Without(s, doomed) <==> c in s && c.name !in doomed
    decreases |s|
  {
    if s != [] {
      WithoutMembers(s[1..], doomed);
      assert s == [s[0]] + s[1..];
    }
  }

  /** The storage activate leaves: `s` without its stale caches, in order. */
  function Pruned(s: Storage, current: string): (r: Storage)
    ensures |r| <= |s|
    ensures forall c :: c in r ==> !Stale(c.name, current)
    decreases |s|
  {
    if s == [] then []
    else (if Stale(s[0].name, current) then [] else [s[0]]) + Pruned(s[1..], current)
  }

  /**
   * After activate every surviving cache is the current one or lies outside
   * the application's prefix, and every cache that is not stale survives
   * with its contents.
   */
  lemma {:induction false} PrunedMembers(s: Storage, current: string)
    ensures forall c :: c in Pruned(s, current) ==> c.name == current || !Text.StartsWith(c.name, CachePrefix)
    ensures forall c :: c in Pruned(s, current) <==> c in s && !Stale(c.name, current)
    decreases |s|
  {
    if s != [] {
      PrunedMembers(s[1..], current);
      assert s == [s[0]] + s[1..];
    }
  }

  lemma {:induction false} WithoutNothing(s: Storage)
    ensures Without(s, {}) == s
    decreases |s|
  {
    if s != [] {
      WithoutNothing(s[1..]);
    }
  }

  lemma {:induction false} WithoutMore(s: Storage, doomed: set<string>, n: string)
    ensures Without(Without(s, doomed), {n}) == Without(s, doomed + {n})
    decreases |s|
  {
    if s != [] {
      WithoutMore(s[1..], doomed, n);
      var rest := Without(s[1..], doomed);
      if s[0].name in doomed {
        assert Without(s, doomed) == rest;
        assert Without(s, doomed + {n}) == Without(s[1..], doomed + {n});
      } else {
        assert Without(s, doomed) == [s[0]] + rest;
        assert ([s[0]] + rest)[1..] == rest;
        if s[0].name == n {
          assert Without([s[0]] + rest, {n}) == Without(rest, {n});
        } else {
          assert Without([s[0]] + rest, {n}) == [s[0]] + Without(rest, {n});
        }
      }
    }
  }

  /** Deleting exactly the stale names is pruning. */
  lemma {:induction false} WithoutStaleIsPruned(s: Storage, doomed: set<string>, current: string)
    requires forall c :: c in s ==> (c.name in doomed <==> Stale(c.name, current))
    ensures Without(s, doomed) == Pruned(s, current)
    decreases |s|
  {
    if s != [] {
      WithoutStaleIsPruned(s[1..], doomed, current);
    }
  }

  /** The stale names among `names`. */
  function StaleAmong(names: seq<string>, current: string): set<string>
    decreases |names|
  {
    if names == [] then {}
    else StaleAmong(names[..|names| - 1], current) + (if Stale(names[|names| - 1], current) then {names[|names| - 1]} else {})
  }

  lemma {:induction false} StaleAmongMembers(names: seq<string>, current: string)
    ensures forall n :: n in StaleAmong(names, current) <==> n in names && Stale(n, current)
    decreases |names|
  {
    if names != [] {
      var init, last := names[..|names| - 1], names[|names| - 1];
      assert names == init + [last];
      StaleAmongMembers(init, current);
    }
  }

  lemma StaleAmongStep(names: seq<string>, i: nat, current: string)
    requires i < |names|
    ensures StaleAmong(names[..i + 1], current)
         == StaleAmong(names[..i], current) + (if Stale(names[i], current) then {names[i]} else {})
  {
    assert names[..i + 1][..i] == names[..i];
  }

  /** One step of activate's loop on a stale name: delete it. */
  lemma DeleteStaleStep(s: Storage, names: seq<string>, i: nat, current: string)
    requires i < |names| && Stale(names[i], current)
    ensures Without(s, StaleAmong(names[..i + 1], current))
         == Without(Without(s, StaleAmong(names[..i], current)), {names[i]})
  {
    StaleAmongStep(names, i, current);
    WithoutMore(s, StaleAmong(names[..i], current), names[i]);
  }

  /** One step of activate's loop on a name that is not stale: keep it. */
  lemma KeepStep(s: Storage, names: seq<string>, i: nat, current: string)
    requires i < |names| && !Stale(names[i], current)
    ensures Without(s, StaleAmong(names[..i + 1], current)) == Without(s, StaleAmong(names[..i], current))
  {
    StaleAmongStep(names, i, current);
    assert StaleAmong(names[..i], current) + {} == StaleAmong(names[..i], current);
  }

  /**
   * The storage after activate's deletions for the first `i` names of
   * `names`, one `caches.delete` per stale name, in order.
   */
  function DeletedUpTo(s: Storage, names: seq<string>, i: nat, current: string): Storage
    requires i <= |names|
    decreases i
  {
    if i == 0 then s
    else
      var t := DeletedUpTo(s, names, i - 1, current);
      if Stale(names[i - 1], current) then Without(t, {names[i - 1]}) else t
  }

  /** Deleting one name at a time deletes the stale names seen so far. */
  lemma {:induction false} DeletedUpToIsWithout(s: Storage, names: seq<string>, i: nat, current: string)
    requires i <= |names|
    ensures DeletedUpTo(s, names, i, current) == Without(s, StaleAmong(names[..i], current))
    decreases i
  {
    if i == 0 {
      assert names[..0] == [];
      WithoutNothing(s);
    } else {
      var j := i - 1;
      DeletedUpToIsWithout(s, names, j, current);
      assert j + 1 == i;
      if Stale(names[j], current) {
        DeleteStaleStep(s, names, j, current);
      } else {
        KeepStep(s, names, j, current);
      }
    }
  }

  /** Deleting the stale names among a storage's own names is pruning it. */
  lemma DeleteStaleEnd(s: Storage, names: seq<string>, current: string)
    requires names == Keys(s)
    ensures DeletedUpTo(s, names, |names|, current) == Pruned(s, current)
  {
    DeletedUpToIsWithout(s, names, |names|, current);
    assert names[..|names|] == names;
    forall c | c in s ensures c.name in names {
      var k :| 0 <= k < |s| && s[k] == c;
      assert names[k] == c.name;
    }
    StaleAmongMembers(names, current);
    WithoutStaleIsPruned(s, StaleAmong(names, current), current);
  }

  /** End-to-end: after an upgrade from 1.0.0 to 1.1.0 only the new cache remains. */
  lemma UpgradeLeavesOnlyNewCache(oldEntries: map<string, Response>, base: string, network: map<string, Response>)
    requires AddAllSucceeds(UrlsToCache(base), network)
    ensures var installed := Installed([NamedCache(CacheName("1.0.0"), oldEntries)], CacheName("1.1.0"), UrlsToCache(base), network);
      var activated := Pruned(installed, CacheName("1.1.0"));
      Keys(activated) == [CacheName("1.1.0")]
  {
    var old0 := NamedCache(CacheName("1.0.0"), oldEntries);
    assert CacheName("1.0.0") != CacheName("1.1.0") by {
      assert CacheName("1.0.0")[|CachePrefix| + 2] != CacheName("1.1.0")[|CachePrefix| + 2];
    }
    var withCache := OpenCache([old0], CacheName("1.1.0"));
    assert withCache == [old0, NamedCache(CacheName("1.1.0"), map[])];
    var installed := Installed([old0], CacheName("1.1.0"), UrlsToCache(base), network);
    assert Find(withCache, CacheName("1.1.0")) == Some(1);
    assert |installed| == 2 && installed[0] == old0 && installed[1].name == CacheName("1.1.0");
    assert Stale(installed[0].name, CacheName("1.1.0"));
    assert installed[1..] == [installed[1]];
    assert Pruned([installed[1]], CacheName("1.1.0")) == [installed[1]] + Pruned([], CacheName("1.1.0"));
    assert Pruned(installed, CacheName("1.1.0")) == [installed[1]];
  }

  // ------------------------------------------------------------------ fetch

  /** What the page sees for an intercepted request. */
  datatype FetchOutcome =
    | PassThrough            // the handler returns without calling respondWith
    | Respond(response: Response)
    | NetworkError           // respondWith settles with no response

  /** A fetch event's outcome and the storage afterwards. */
  datatype Handled = Handled(outcome: FetchOutcome, storage: Storage)

  /** The handler only intercepts requests whose `url.protocol` starts with "http". */
  predicate Intercepted(req: Request) {
    Text.StartsWith(Protocol(req.url), "http")
  }

  predicate IsNavigation(req: Request) {
    req.mode == "navigate" || req.destination == "document"
  }

  /**
   * Network-first: the network response, stored in the current cache
   * whatever its status; on network failure the first cache hit for the
   * request, else the first cache hit for the scope, else a failure.
   */
  function NetworkFirst(s: Storage, current: string, base: string, req: Request, network: Option<Response>): (r: Handled)
    ensures network.Some? ==> r.outcome == Respond(network.value)
    ensures network.None? ==> r.storage == s
    ensures r.outcome == NetworkError <==>
      network.None? && MatchAll(s, req.url, req.httpMethod == "GET").None? && MatchAll(s, base, true).None?
    ensures forall c :: c in s && c.name != current ==> c in r.storage
  {
    match network
    case Some(resp) =>
      PutKeepsOthers(s, current, req, resp);
      Handled(Respond(resp), PutResponse(OpenCache(s, current), current, req, resp))
    case None =>
      var hit := MatchAll(s, req.url, req.httpMethod == "GET");
      var shell := MatchAll(s, base, true);
      Handled(if hit.Some? then Respond(hit.value) else if shell.Some? then Respond(shell.value) else NetworkError, s)
  }

  /**
   * Stale-while-revalidate: the current cache's entry when there is one,
   * else the network response of any status, else a failure; a network
   * response with status 200 replaces the entry.
   */
  function StaleWhileRevalidate(s: Storage, current: string, req: Request, network: Option<Response>): (r: Handled)
    ensures r.outcome == NetworkError <==>
      network.None? && MatchIn(OpenCache(s, current), current, req.url, req.httpMethod == "GET").None?
    ensures network.Some? ==> r.outcome.Respond?
    ensures Keys(r.storage) == Keys(OpenCache(s, current))
    ensures forall c :: c in s && c.name != current ==> c in r.storage
  {
    var withCache := OpenCache(s, current);
    var cached := MatchIn(withCache, current, req.url, req.httpMethod == "GET");
    var updated :=
      if network.Some? && network.value.status == 200 then
        PutKeepsOthers(s, current, req, network.value);
        PutResponse(withCache, current, req, network.value)
      else withCache;
    Handled(if cached.Some? then Respond(cached.value) else if network.Some? then Respond(network.value) else NetworkError, updated)
  }

  /** The fetch handler of a worker with cache `current` and scope `base`. */
  function HandleFetch(s: Storage, current: string, base: string, req: Request, network: Option<Response>): (r: Handled)
    ensures r.outcome.PassThrough? <==> !Intercepted(req)
    ensures !Intercepted(req) ==> r.storage == s
    ensures r.outcome == NetworkError ==> network.None?
    ensures forall c :: c in s && c.name != current ==> c in r.storage
  {
    if !Intercepted(req) then Handled(PassThrough, s)
    else if IsNavigation(req) then NetworkFirst(s, current, base, req, network)
    else StaleWhileRevalidate(s, current, req, network)
  }

  /** Opening a cache and putting into it keeps every other cache. */
  lemma PutKeepsOthers(s: Storage, name: string, req: Request, resp: Response)
    ensures forall c :: c in s && c.name != name ==> c in PutResponse(OpenCache(s, name), name, req, resp)
  {
    var o := OpenCache(s, name);
    forall c | c in s && c.name != name ensures c in PutResponse(o, name, req, resp) {
      var i :| 0 <= i < |o| && o[i] == c;
      assert PutResponse(o, name, req, resp)[i] == c;
    }
  }

  /** After `PutResponse(OpenCache(s, name), ...)` the cache maps the request to the response when the put is allowed. */
  lemma OpenThenPut(s: Storage, name: string, req: Request, resp: Response)
    requires DistinctNames(s) && PutAllowed(req, resp)
    ensures var r := PutResponse(OpenCache(s, name), name, req, resp);
      MatchIn(r, name, req.url, true) == Some(resp) && DistinctNames(r)
  {
    var o := OpenCache(s, name);
    var r := PutResponse(o, name, req, resp);
    var k := Find(o, name).value;
    assert r == o[k := NamedCache(name, o[k].entries[req.url := resp])];
    ReplaceEntries(o, k, o[k].entries[req.url := resp]);
  }

  /** A request that is not http(s) is left to the browser and touches no cache. */
  lemma NonHttpPassesThrough(s: Storage, current: string, base: string, req: Request, network: Option<Response>)
    requires !Text.StartsWith(req.url, "http")
    ensures HandleFetch(s, current, base, req, network) == Handled(PassThrough, s)
  {
  }

  /** A navigation the network answers returns that response and stores it, whatever its status except 206. */
  lemma NavigationOnline(s: Storage, current: string, base: string, req: Request, resp: Response)
    requires DistinctNames(s) && IsNavigation(req) && req.httpMethod == "GET" && IsHttpUrl(req.url) && resp.status != 206
    ensures var h := HandleFetch(s, current, base, req, Some(resp));
      h.outcome == Respond(resp) && MatchIn(h.storage, current, req.url, true) == Some(resp)
  {
    HttpIsIntercepted(req);
    OpenThenPut(s, current, req, resp);
  }

  /** A navigation the network fails: request hit, else scope hit, else failure; no cache changes. */
  lemma NavigationOffline(s: Storage, current: string, base: string, req: Request)
    requires Intercepted(req) && IsNavigation(req)
    ensures var h := HandleFetch(s, current, base, req, None);
      h.storage == s &&
      h.outcome == (match MatchAll(s, req.url, req.httpMethod == "GET")
                    case Some(r) => Respond(r)
                    case None => (match MatchAll(s, base, true) case Some(r) => Respond(r) case None => NetworkError))
  {
  }

  /**
   * An asset request: the current cache's entry wins over the network;
   * without one, the network response of any status; without both, failure.
   * The entry changes only to a status-200 response.
   */
  lemma AssetOutcome(s: Storage, current: string, base: string, req: Request, network: Option<Response>)
    requires DistinctNames(s) && Intercepted(req) && !IsNavigation(req)
    ensures var h := HandleFetch(s, current, base, req, network);
      var cached := MatchIn(OpenCache(s, current), current, req.url, req.httpMethod == "GET");
      && (cached.Some? ==> h.outcome == Respond(cached.value))
      && (cached.None? && network.Some? ==> h.outcome == Respond(network.value))
      && (cached.None? && network.None? ==> h.outcome == NetworkError)
      && (network.Some? && network.value.status == 200 && PutAllowed(req, network.value) ==>
            MatchIn(h.storage, current, req.url, true) == network)
      && (network.None? || network.value.status != 200 ==> h.storage == OpenCache(s, current))
  {
    if network.Some? && network.value.status == 200 && PutAllowed(req, network.value) {
      OpenThenPut(s, current, req, network.value);
    }
  }

  // ---------------------------------------------------------------- message

  /** What the message handler does: whether it calls skipWaiting, and the reply it posts on `ports[0]`. */
  datatype MessageEffect = MessageEffect(skipWaiting: bool, reply: Option<string>)

  /**
   * `msgType` is `event.data.type` (`None` when the data or its type is
   * absent). `SKIP_WAITING` calls skipWaiting; `GET_VERSION` replies
   * `{version}` on the first port, and throws before replying when there is
   * no port; anything else does nothing.
   */
  function HandleMessage(msgType: Option<string>, portCount: nat, version: string): (e: MessageEffect)
    ensures e.skipWaiting <==> msgType == Some("SKIP_WAITING")
    ensures e.reply.Some? <==> msgType == Some("GET_VERSION") && portCount > 0
    ensures e.reply.Some? ==> e.reply.value == version
  {
    MessageEffect(
      msgType == Some("SKIP_WAITING"),
      if msgType == Some("GET_VERSION") && portCount > 0 then Some(version) else None)
  }

  // ----------------------------------------------------------- the objects

  /** The origin's CacheStorage object, shared by every worker version. */
  class CacheStorage {
    var caches: Storage

    constructor (initial: Storage)
      ensures caches == initial
    {
      caches := initial;
    }

    method Open(name: string)
      modifies this
      ensures caches == OpenCache(old(caches), name)
    {
      caches := OpenCache(caches, name);
    }

    method Put(name: string, req: Request, resp: Response)
      modifies this
      ensures caches == PutResponse(old(caches), name, req, resp)
    {
      caches := PutResponse(caches, name, req, resp);
    }

    /** `cache.addAll(urls)` on the cache `name`, which must be open: all or nothing. */
    method AddAll(name: string, urls: seq<string>, network: map<string, Response>) returns (ok: bool)
      requires Find(caches, name).Some?
      modifies this
      ensures ok == AddAllSucceeds(urls, network)
      ensures caches == if ok then old(caches)[Find(old(caches), name).value :=
                  NamedCache(name, AddAllEntries(old(caches)[Find(old(caches), name).value].entries, urls, network))]
                else old(caches)
    {
      ok := AddAllSucceeds(urls, network);
      if ok {
        var k := Find(caches, name).value;
        caches := caches[k := NamedCache(name, AddAllEntries(caches[k].entries, urls, network))];
      }
    }

    method Delete(name: string) returns (deleted: bool)
      modifies this
      ensures deleted == Find(old(caches), name).Some?
      ensures caches == Without(old(caches), {name})
    {
      deleted := Find(caches, name).Some?;
      caches := Without(caches, {name});
    }

    /**
     * Activate's `caches.keys()` chain run against this storage: one
     * `caches.delete` per stale name, in key order.
     */
    method DeleteStale(current: string)
      modifies this
      ensures caches == Pruned(old(caches), current)
    {
      var names := Names();
      ghost var before := caches;
      var i := 0;
      while i < |names|
        invariant 0 <= i <= |names|
        invariant caches == DeletedUpTo(before, names, i, current)
      {
        if Stale(names[i], current) {
          var _ := Delete(names[i]);
        }
        i := i + 1;
      }
      DeleteStaleEnd(before, names, current);
    }

    method Names() returns (names: seq<string>)
      ensures |names| == |caches| && forall i :: 0 <= i < |caches| ==> names[i] == caches[i].name
      ensures names == Keys(caches)
    {
      names := Keys(caches);
    }

    method Match(url: string, isGet: bool) returns (r: Option<Response>)
      ensures r.Some? <==> isGet && exists c :: c in caches && url in c.entries
      ensures r.Some? ==> exists k :: 0 <= k < |caches| && url in caches[k].entries && caches[k].entries[url] == r.value &&
                                      forall j :: 0 <= j < k ==> url !in caches[j].entries
      ensures r == MatchAll(caches, url, isGet)
    {
      r := MatchAll(caches, url, isGet);
    }

    method MatchCache(name: string, url: string, isGet: bool) returns (r: Option<Response>)
      ensures r.Some? ==> isGet && exists c :: c in caches && c.name == name && url in c.entries && c.entries[url] == r.value
      ensures DistinctNames(caches) ==> forall c :: c in caches && c.name == name ==>
        r == if isGet && url in c.entries then Some(c.entries[url]) else None
      ensures r == MatchIn(caches, name, url, isGet)
    {
      r := MatchIn(caches, name, url, isGet);
    }
  }

  /** One worker script instance: its compiled-in version, its scope (`BASE`) and the origin's storage. */
  class Worker {
    const version: string
    const scope: string
    const storage: CacheStorage
    var skipWaitingCalls: nat
    var clientsClaimed: bool

    constructor (version: string, scope: string, storage: CacheStorage)
      ensures this.version == version && this.scope == scope && this.storage == storage
      ensures skipWaitingCalls == 0 && !clientsClaimed
    {
      this.version := version;
      this.scope := scope;
      this.storage := storage;
      skipWaitingCalls := 0;
      clientsClaimed := false;
    }

    /** The install handler: skipWaiting unconditionally, then open the cache and add the batch; it always completes. */
    method Install(network: map<string, Response>) returns (batchStored: bool)
      modifies this, storage
      ensures skipWaitingCalls == old(skipWaitingCalls) + 1 && clientsClaimed == old(clientsClaimed)
      ensures batchStored == AddAllSucceeds(UrlsToCache(scope), network)
      ensures storage.caches == Installed(old(storage.caches), CacheName(version), UrlsToCache(scope), network)
    {
      skipWaitingCalls := skipWaitingCalls + 1;
      storage.Open(CacheName(version));
      batchStored := storage.AddAll(CacheName(version), UrlsToCache(scope), network);
    }

    /** The activate handler: delete every stale cache, then claim the clients. */
    method Activate()
      modifies this, storage
      ensures storage.caches == Pruned(old(storage.caches), CacheName(version))
      ensures clientsClaimed && skipWaitingCalls == old(skipWaitingCalls)
    {
      storage.DeleteStale(CacheName(version));
      clientsClaimed := true;
    }

    /** The fetch handler, its promise chains run in order. */
    method Fetch(req: Request, network: Option<Response>) returns (outcome: FetchOutcome)
      modifies storage
      ensures Handled(outcome, storage.caches) == HandleFetch(old(storage.caches), CacheName(version), scope, req, network)
    {
      var current := CacheName(version);
      if !Intercepted(req) {
        return PassThrough;
      }
      if IsNavigation(req) {
        if network.Some? {
          storage.Open(current);
          storage.Put(current, req, network.value);
          outcome := Respond(network.value);
        } else {
          var hit := storage.Match(req.url, req.httpMethod == "GET");
          if hit.Some? {
            outcome := Respond(hit.value);
          } else {
            var shell := storage.Match(scope, true);
            outcome := if shell.Some? then Respond(shell.value) else NetworkError;
          }
        }
        return;
      }
      storage.Open(current);
      var cached := storage.MatchCache(current, req.url, req.httpMethod == "GET");
      if network.Some? && network.value.status == 200 {
        storage.Put(current, req, network.value);
      }
      outcome := if cached.Some? then Respond(cached.value) else if network.Some? then Respond(network.value) else NetworkError;
    }

    /** The message handler; returns the reply posted on `ports[0]`, if any. */
    method OnMessage(msgType: Option<string>, portCount: nat) returns (reply: Option<string>)
      modifies this
      ensures var e := HandleMessage(msgType, portCount, version);
        reply == e.reply && skipWaitingCalls == old(skipWaitingCalls) + (if e.skipWaiting then 1 else 0)
      ensures clientsClaimed == old(clientsClaimed)
    {
      if msgType == Some("SKIP_WAITING") {
        skipWaitingCalls := skipWaitingCalls + 1;
      }
      reply := None;
      if msgType == Some("GET_VERSION") && portCount > 0 {
        reply := Some(version);
      }
    }
  }
}
