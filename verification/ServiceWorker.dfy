/** The offline service worker: the named cache buckets it fills on install and prunes on
    activate, and how it answers each fetch (network first for navigations, cached-or-network
    for same-origin assets, nothing for other requests). */
module ServiceWorker {
  import opened Wrappers
  import opened Seqs

  /** The one bucket this version of the worker owns. */
  const CacheName: string := "linksaver-chat-v2"

  /** The application shell, precached on install. */
  const Assets: seq<string> := ["./", "./index.html", "./style.css", "./script.js", "./manifest.json", "./icons/icon.svg"]

  /** The page every navigation is answered with. */
  const Shell: string := "./index.html"

  datatype Response = Response(status: int, body: string)

  /** `Response.ok`: a status in the range 200-299. */
  predicate IsOk(r: Response) {
    200 <= r.status <= 299
  }

  /** One cache bucket: request URL to stored response. */
  type Bucket = map<string, Response>

  datatype Mode = Navigate | SameOrigin | NoCors | Cors
  datatype Request = Request(verb: string, mode: Mode, url: string, origin: string)

  /** Which branch of the fetch handler a request takes. */
  datatype Route = Ignored | Navigation | Asset | CrossOrigin

  /** What the page receives: a response, `Response.error()`, or a promise resolved with
      `undefined` (which the browser turns into a network error of its own). */
  datatype Reply = Served(response: Response) | NetworkError | Undefined

  /** `PassThrough`: the handler does not call `respondWith` and the browser fetches as usual. */
  datatype Handling = PassThrough | RespondWith(reply: Reply)

  // ----- routing -----

  /** The fetch handler's branches, tried in source order: method, then mode, then origin. */
  function RouteOf(req: Request, selfOrigin: string): (r: Route)
    ensures r == Ignored <==> req.verb != "GET"
    ensures r == Navigation <==> req.verb == "GET" && req.mode == Navigate
    ensures r == Asset <==> req.verb == "GET" && req.mode != Navigate && req.origin == selfOrigin
    ensures r == CrossOrigin <==> req.verb == "GET" && req.mode != Navigate && req.origin != selfOrigin
  {
    if req.verb != "GET" then Ignored
    else if req.mode == Navigate then Navigation
    else if req.origin == selfOrigin then Asset
    else CrossOrigin
  }

  // ----- cache lookups -----

  predicate HasKey(buckets: map<string, Bucket>, name: string, key: string) {
    name in buckets && key in buckets[name]
  }

  /** `caches.match(key)`: the entry of the first bucket, in creation order, that holds `key`. */
  function MatchAll(names: seq<string>, buckets: map<string, Bucket>, key: string): (r: Option<Response>)
    ensures r.Some? <==> exists i :: 0 <= i < |names| && HasKey(buckets, names[i], key)
    ensures r.Some? ==> exists i :: (
      && 0 <= i < |names| && HasKey(buckets, names[i], key)
      && r.value == buckets[names[i]][key]
      && forall j :: 0 <= j < i ==> !HasKey(buckets, names[j], key))
  {
    if names == [] then None
    else if HasKey(buckets, names[0], key) then
      Some(buckets[names[0]][key])
    else
      var r := MatchAll(names[1..], buckets, key);
      assert forall i :: 1 <= i < |names| ==> names[i] == names[1..][i - 1];
      if r.Some? then
        var i :| 0 <= i < |names[1..]| && HasKey(buckets, names[1..][i], key)
          && r.value == buckets[names[1..][i]][key]
          && forall j :: 0 <= j < i ==> !HasKey(buckets, names[1..][j], key);
        assert forall j :: 0 <= j < i + 1 ==> !HasKey(buckets, names[j], key) by {
          forall j | 0 <= j < i + 1 ensures !HasKey(buckets, names[j], key) {
            if j > 0 {
              assert names[j] == names[1..][j - 1];
            }
          }
        }
        assert names[i + 1] == names[1..][i];
        r
      else
        r
  }

  /** The entry stored under `key` in bucket `name`, if any (`cache.match` on one bucket). */
  function Lookup(buckets: map<string, Bucket>, name: string, key: string): (r: Option<Response>)
    ensures r.Some? <==> HasKey(buckets, name, key)
    ensures r.Some? ==> r.value == buckets[name][key]
  {
    if HasKey(buckets, name, key) then Some(buckets[name][key]) else None
  }

  /** When the only bucket is `name`, matching across all buckets is a lookup in that one. */
  lemma MatchAllSingle(buckets: map<string, Bucket>, name: string, key: string)
    ensures MatchAll([name], buckets, key) == Lookup(buckets, name, key)
  {
    assert [name][1..] == [];
  }

  // ----- replies -----

  /** The `catch` branch of a navigation: the cached shell, else the cached request, else
      `Response.error()`; never `undefined`. */
  function NavigationFallback(names: seq<string>, buckets: map<string, Bucket>, url: string): (r: Reply)
    ensures r != Undefined
    ensures MatchAll(names, buckets, Shell).Some? ==> r == Served(MatchAll(names, buckets, Shell).value)
    ensures MatchAll(names, buckets, Shell).None? && MatchAll(names, buckets, url).Some? ==>
      r == Served(MatchAll(names, buckets, url).value)
    ensures r == NetworkError <==> MatchAll(names, buckets, Shell).None? && MatchAll(names, buckets, url).None?
  {
    match MatchAll(names, buckets, Shell)
    case Some(shell) => Served(shell)
    case None =>
      match MatchAll(names, buckets, url)
      case Some(cached) => Served(cached)
      case None => NetworkError
  }

  /** The reply to a same-origin asset request as the code computes it: `cached ||
      networkPromise || …`, where the promise is always truthy, so the awaited value is the
      cached entry, else the network response, else `undefined`; the shell is never consulted. */
  function AssetReply(cached: Option<Response>, network: Option<Response>): (r: Reply)
    ensures r == Undefined <==> cached.None? && network.None?
    ensures r != NetworkError
    ensures cached.Some? ==> r == Served(cached.value)
    ensures cached.None? && network.Some? ==> r == Served(network.value)
  {
    if cached.Some? then Served(cached.value)
    else if network.Some? then Served(network.value)
    else Undefined
  }

  /** The evidently intended asset reply: the cached entry, else the network response, else
      the cached shell. */
  function IntendedAssetReply(cached: Option<Response>, network: Option<Response>, shell: Option<Response>): (r: Reply)
    ensures r == Undefined <==> cached.None? && network.None? && shell.None?
    ensures r != NetworkError
    ensures cached.Some? ==> r == Served(cached.value)
    ensures cached.None? && network.Some? ==> r == Served(network.value)
    ensures cached.None? && network.None? && shell.Some? ==> r == Served(shell.value)
  {
    if cached.Some? then Served(cached.value)
    else if network.Some? then Served(network.value)
    else if shell.Some? then Served(shell.value)
    else Undefined
  }

  /** The two replies agree whenever the cache or the network answers; they differ exactly
      when both fail while the shell is cached. */
  lemma AssetRepliesDiffer(cached: Option<Response>, network: Option<Response>, shell: Option<Response>)
    ensures AssetReply(cached, network) != IntendedAssetReply(cached, network, shell) <==>
      cached.None? && network.None? && shell.Some?
  {
  }

  // ----- bucket updates as values -----

  /** `caches.open(name)` on the name list: a new bucket is appended in creation order. */
  function OpenedNames(names: seq<string>, name: string): (r: seq<string>)
    ensures name in r
    ensures forall n :: n in r <==> n in names || n == name
    ensures Distinct(names) ==> Distinct(r)
    ensures name in names ==> r == names
    ensures name !in names ==> r == names + [name]
  {
    if name in names then names else names + [name]
  }

  /** `caches.open(name)` on the buckets: an empty bucket when none exists yet. */
  function OpenedBuckets(buckets: map<string, Bucket>, name: string): (r: map<string, Bucket>)
    ensures r.Keys == buckets.Keys + {name}
    ensures forall n :: n in buckets ==> r[n] == buckets[n]
    ensures name !in buckets ==> r[name] == map[]
  {
    if name in buckets then buckets else buckets[name := map[]]
  }

  /** `cache.put(key, res)` on an open bucket. */
  function PutEntry(buckets: map<string, Bucket>, name: string, key: string, res: Response): (r: map<string, Bucket>)
    requires name in buckets
    ensures r.Keys == buckets.Keys
    ensures forall n :: n in buckets && n != name ==> r[n] == buckets[n]
    ensures r[name].Keys == buckets[name].Keys + {key} && r[name][key] == res
    ensures forall k :: k in buckets[name] && k != key ==> r[name][k] == buckets[name][k]
  {
    buckets[name := buckets[name][key := res]]
  }

  /** Every asset fetched with an ok status: the condition under which `cache.addAll` stores. */
  predicate AllAssetsOk(fetchAsset: string -> Option<Response>) {
    forall a :: a in Assets ==> fetchAsset(a).Some? && IsOk(fetchAsset(a).value)
  }

  /** The buckets after install: the worker's bucket is opened, and receives every asset only
      when all of them were fetched with an ok status. */
  function InstalledBuckets(buckets: map<string, Bucket>, fetchAsset: string -> Option<Response>): (r: map<string, Bucket>)
    ensures r.Keys == buckets.Keys + {CacheName}
    ensures forall n :: n in buckets && n != CacheName ==> r[n] == buckets[n]
    ensures AllAssetsOk(fetchAsset) ==>
      forall a :: a in Assets ==> a in r[CacheName] && r[CacheName][a] == fetchAsset(a).value
    ensures AllAssetsOk(fetchAsset) ==>
      r[CacheName].Keys == OpenedBuckets(buckets, CacheName)[CacheName].Keys + (set a | a in Assets)
    ensures AllAssetsOk(fetchAsset) ==> forall k :: k in OpenedBuckets(buckets, CacheName)[CacheName] && k !in Assets ==>
      r[CacheName][k] == OpenedBuckets(buckets, CacheName)[CacheName][k]
    ensures !AllAssetsOk(fetchAsset) ==> r == OpenedBuckets(buckets, CacheName)
  {
    var own := OpenedBuckets(buckets, CacheName);
    if AllAssetsOk(fetchAsset) then
      own[CacheName := own[CacheName] + map a | a in Assets :: fetchAsset(a).value]
    else own
  }

  /** The buckets after activate: only the worker's own bucket is left. */
  function KeepOnly(buckets: map<string, Bucket>, name: string): (r: map<string, Bucket>)
    ensures r.Keys == buckets.Keys * {name}
    ensures name in buckets ==> r[name] == buckets[name]
  {
    map n | n in buckets && n == name :: buckets[n]
  }

  /** Activating twice leaves the same buckets as activating once. */
  lemma KeepOnlyIdempotent(buckets: map<string, Bucket>, name: string)
    ensures KeepOnly(KeepOnly(buckets, name), name) == KeepOnly(buckets, name)
  {
  }

  /** After a complete install and an activate, a navigation that cannot reach the network is
      answered with the precached shell. */
  lemma {:induction false} OfflineNavigationServesShell(buckets: map<string, Bucket>,
      fetchAsset: string -> Option<Response>, url: string)
    requires AllAssetsOk(fetchAsset)
    ensures NavigationFallback([CacheName], KeepOnly(InstalledBuckets(buckets, fetchAsset), CacheName), url)
      == Served(fetchAsset(Shell).value)
  {
    var b := KeepOnly(InstalledBuckets(buckets, fetchAsset), CacheName);
    assert Shell in Assets;
    MatchAllSingle(b, CacheName, Shell);
  }

  /** As written: after a complete install and an activate, a same-origin request for a URL
      that is not precached, made offline, is answered with `undefined` although the shell is
      in the cache. */
  lemma {:induction false} OfflineAssetIsUndefined(buckets: map<string, Bucket>,
      fetchAsset: string -> Option<Response>, url: string)
    requires AllAssetsOk(fetchAsset)
    requires url !in Assets && (CacheName in buckets ==> url !in buckets[CacheName])
    ensures var b := KeepOnly(InstalledBuckets(buckets, fetchAsset), CacheName);
      && Lookup(b, CacheName, Shell).Some?
      && AssetReply(Lookup(b, CacheName, url), None) == Undefined
  {
    var b := KeepOnly(InstalledBuckets(buckets, fetchAsset), CacheName);
    assert Shell in Assets;
    assert url !in b[CacheName];
  }

  /** Corrected: under the same conditions the intended reply serves the cached shell. */
  lemma {:induction false} OfflineAssetServesShell(buckets: map<string, Bucket>,
      fetchAsset: string -> Option<Response>, url: string)
    requires AllAssetsOk(fetchAsset)
    requires url !in Assets && (CacheName in buckets ==> url !in buckets[CacheName])
    ensures var b := KeepOnly(InstalledBuckets(buckets, fetchAsset), CacheName);
      IntendedAssetReply(Lookup(b, CacheName, url), None, Lookup(b, CacheName, Shell))
        == Served(fetchAsset(Shell).value)
  {
    var b := KeepOnly(InstalledBuckets(buckets, fetchAsset), CacheName);
    assert Shell in Assets;
    assert url !in b[CacheName];
  }

  // ----- the cache storage of the worker's origin -----

  /** `caches`: the buckets by name, and the order in which they were created. */
  class CacheStorage {
    var names: seq<string>
    var buckets: map<string, Bucket>

    ghost predicate Valid()
      reads this
    {
      && Distinct(names)
      && forall n :: n in names <==> n in buckets
    }

    constructor ()
      ensures Valid() && names == [] && buckets == map[]
    {
      names := [];
      buckets := map[];
    }

    /** `caches.open(name)`. */
    method Open(name: string)
      requires Valid()
      modifies this
      ensures Valid()
      ensures names == OpenedNames(old(names), name)
      ensures buckets == OpenedBuckets(old(buckets), name)
    {
      if name !in buckets {
        names := names + [name];
        buckets := buckets[name := map[]];
      }
    }

    /** `cache.put(key, res)` on the open bucket `name`. */
    method Put(name: string, key: string, res: Response)
      requires Valid() && name in buckets
      modifies this`buckets
      ensures Valid()
      ensures buckets == PutEntry(old(buckets), name, key, res)
    {
      buckets := buckets[name := buckets[name][key := res]];
    }

    /** `caches.delete(name)`. */
    method Delete(name: string) returns (deleted: bool)
      requires Valid()
      modifies this
      ensures Valid()
      ensures deleted <==> name in old(buckets)
      ensures names == Without(old(names), name)
      ensures forall n :: n in names <==> n in old(names) && n != name
      ensures buckets == old(buckets) - {name}
    {
      deleted := name in buckets;
      forall n ensures n in Without(names, name) <==> n in names && n != name {
        WithoutMembers(names, name, n);
      }
      WithoutDistinct(names, name);
      names := Without(names, name);
      buckets := buckets - {name};
    }

    /** `caches.match(key)`: the buckets are searched in creation order. */
    method Match(key: string) returns (r: Option<Response>)
      ensures r == MatchAll(names, buckets, key)
    {
      var i := 0;
      while i < |names|
        invariant 0 <= i <= |names|
        invariant MatchAll(names[i..], buckets, key) == MatchAll(names, buckets, key)
      {
        if HasKey(buckets, names[i], key) {
          return Some(buckets[names[i]][key]);
        }
        assert names[i..][1..] == names[i + 1..];
        i := i + 1;
      }
      assert names[i..] == [];
      return None;
    }

    /** The install handler: open the worker's bucket, then `cache.addAll(ASSETS)`, which
        stores nothing unless every asset is fetched with an ok status. */
    method Install(fetchAsset: string -> Option<Response>) returns (installed: bool)
      requires Valid()
      modifies this
      ensures Valid()
      ensures installed <==> AllAssetsOk(fetchAsset)
      ensures names == OpenedNames(old(names), CacheName)
      ensures buckets == InstalledBuckets(old(buckets), fetchAsset)
    {
      Open(CacheName);
      installed := AllAssetsOk(fetchAsset);
      if installed {
        buckets := buckets[CacheName := buckets[CacheName] + map a | a in Assets :: fetchAsset(a).value];
      }
    }

    /** The activate handler: delete every bucket whose name is not the worker's own. */
    method Activate()
      requires Valid()
      modifies this
      ensures Valid()
      ensures names == if CacheName in old(names) then [CacheName] else []
      ensures buckets == KeepOnly(old(buckets), CacheName)
    {
      var keys := names;
      var i := 0;
      while i < |keys|
        invariant Valid()
        invariant 0 <= i <= |keys|
        invariant forall n :: n in names <==> n in keys && (n in keys[..i] ==> n == CacheName)
        invariant buckets == map n | n in old(buckets) && (n in keys[..i] ==> n == CacheName) :: old(buckets)[n]
      {
        assert keys[..i + 1] == keys[..i] + [keys[i]];
        if keys[i] != CacheName {
          var _ := Delete(keys[i]);
        }
        i := i + 1;
      }
      assert keys[..i] == keys;
      if CacheName in old(names) {
        DistinctSingleton(names, CacheName);
      } else {
        NoMembersEmpty(names);
      }
    }

    /** The fetch handler. `network` is the outcome of the one fetch the handler makes (of the
        shell for a navigation, of the request for an asset); `None` is a rejected fetch or,
        for a navigation, the 4-second timeout. */
    method HandleFetch(req: Request, selfOrigin: string, network: Option<Response>) returns (h: Handling)
      requires Valid()
      modifies this
      ensures Valid()
      ensures RouteOf(req, selfOrigin) in {Ignored, CrossOrigin} ==>
        h == PassThrough && names == old(names) && buckets == old(buckets)
      ensures RouteOf(req, selfOrigin) == Navigation && network.Some? ==>
        && h == RespondWith(Served(network.value))
        && names == OpenedNames(old(names), CacheName)
        && buckets == PutEntry(OpenedBuckets(old(buckets), CacheName), CacheName, Shell, network.value)
      ensures RouteOf(req, selfOrigin) == Navigation && network.None? ==>
        && h == RespondWith(NavigationFallback(old(names), old(buckets), req.url))
        && names == old(names) && buckets == old(buckets)
      ensures RouteOf(req, selfOrigin) == Asset ==>
        && h == RespondWith(AssetReply(Lookup(old(buckets), CacheName, req.url), network))
        && names == OpenedNames(old(names), CacheName)
        && buckets == if network.Some?
                      then PutEntry(OpenedBuckets(old(buckets), CacheName), CacheName, req.url, network.value)
                      else OpenedBuckets(old(buckets), CacheName)
    {
      match RouteOf(req, selfOrigin) {
        case Ignored =>
          h := PassThrough;
        case CrossOrigin =>
          h := PassThrough;
        case Navigation =>
          if network.Some? {
            Open(CacheName);
            Put(CacheName, Shell, network.value);
            h := RespondWith(Served(network.value));
          } else {
            var shell := Match(Shell);
            if shell.Some? {
              h := RespondWith(Served(shell.value));
            } else {
              var cached := Match(req.url);
              h := RespondWith(if cached.Some? then Served(cached.value) else NetworkError);
            }
          }
        case Asset =>
          Open(CacheName);
          var cached := Lookup(buckets, CacheName, req.url);
          if network.Some? {
            Put(CacheName, req.url, network.value);
          }
          h := RespondWith(AssetReply(cached, network));
      }
    }
  }
}
