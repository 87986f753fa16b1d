/** The offline-caching service worker: its install, activate and fetch
    handlers, each a synchronous method over the cache storage and the network
    that settles with what the handler's promise would. */
module Worker {
  import opened Outcomes
  import opened Sequences
  import opened Http
  import opened Caches
  import opened Manifest

  /** The entries a successful install writes: every asset with the network's answer. */
  function ManifestEntries(serve: map<Request, Response>): (entries: Store)
    requires AllFetched(FILES, serve)
    ensures entries.Keys == set p | p in FILES
    ensures forall p :: p in FILES ==> entries[p] == serve[p]
  {
    map p | p in FILES :: serve[p]
  }

  /** The storage after a successful install from storage `s`. */
  function Installed(s: Storage, serve: map<Request, Response>): Storage
    requires AllFetched(FILES, serve)
  {
    Populated(Opened(s, CACHE), CACHE, ManifestEntries(serve))
  }

  /** The install handler: `caches.open(CACHE).then(c => c.addAll(FILES))`.
      It succeeds exactly when every asset is fetched with a response `addAll`
      accepts, and then the current cache holds every asset; on failure the
      current cache exists but nothing was written to it. */
  method OnInstall(storage: CacheStorage, net: Network) returns (r: Outcome<CacheError>)
    requires storage.Valid()
    modifies storage, net`log
    ensures storage.Valid()
    ensures net.log == old(net.log) + FILES
    ensures r.Pass? <==> AllFetched(FILES, net.serve)
    ensures r.Pass? ==> storage.Snapshot() == Installed(old(storage.Snapshot()), net.serve)
    ensures r.Fail? ==> storage.Snapshot() == Opened(old(storage.Snapshot()), CACHE)
    ensures r.Fail? ==> FirstFailure(FILES, net.serve) == Some(r.error)
  {
    storage.Open(CACHE);
    ManifestDistinct();
    AddAllSucceeds(FILES, net.serve);
    r := storage.AddAll(CACHE, FILES, net);
  }

  /** The activate handler: every cache whose name is not `CACHE` is deleted,
      one name of `caches.keys()` after another. */
  method OnActivate(storage: CacheStorage)
    requires storage.Valid()
    modifies storage
    ensures storage.Valid()
    ensures storage.Snapshot() == DeleteStale(old(storage.Snapshot()), old(storage.names), CACHE)
    ensures storage.stores.Keys == old(storage.stores).Keys * {CACHE}
    ensures CACHE in old(storage.stores) ==> storage.stores[CACHE] == old(storage.stores)[CACHE]
  {
    ghost var start := storage.Snapshot();
    var keys := storage.Keys();
    for i := 0 to |keys|
      invariant storage.Valid()
      invariant DeleteStale(storage.Snapshot(), keys[i..], CACHE) == DeleteStale(start, keys, CACHE)
    {
      assert keys[i..][0] == keys[i] && keys[i..][1..] == keys[i + 1..];
      if keys[i] != CACHE {
        var _ := storage.Delete(keys[i]);
      }
    }
    assert keys[|keys|..] == [];
    CleanupKeepsOnlyTag(start, CACHE);
  }

  /** The fetch handler: `caches.match(request).then(r => r || fetch(request))`.
      A hit is answered from the cache without using the network; a miss is
      sent to the network once and its answer, or its failure, passed on.
      The cache storage is never written. */
  method OnFetch(storage: CacheStorage, net: Network, request: Request)
    returns (r: Result<Response, NetworkError>)
    modifies net`log
    ensures storage.Snapshot() == old(storage.Snapshot())
    ensures match Lookup(storage.names, storage.stores, request)
      case Some(cached) => r == Success(cached) && net.log == old(net.log)
      case None => r == net.Answer(request) && net.log == old(net.log) + [request]
  {
    var hit := storage.Match(request);
    match hit
    case Some(cached) =>
      r := Success(cached);
    case None =>
      r := net.Fetch(request);
  }

  /** Because a miss writes nothing, asking again for the same missing request
      goes to the network a second time. Both answers come from the same
      `serve`, which nothing changes between the two calls here; a real
      network may answer the second request differently. */
  method FetchMissTwice(storage: CacheStorage, net: Network, request: Request)
    returns (first: Result<Response, NetworkError>, second: Result<Response, NetworkError>)
    requires Lookup(storage.names, storage.stores, request).None?
    modifies net`log
    ensures net.log == old(net.log) + [request, request]
    ensures first == second == net.Answer(request)
  {
    first := OnFetch(storage, net, request);
    second := OnFetch(storage, net, request);
  }

  /** After a successful install the current cache holds an entry for every
      asset, with the network's answer, and the other caches are as they were. */
  lemma InstallStoresManifest(s: Storage, serve: map<Request, Response>)
    requires WellFormed(s) && AllFetched(FILES, serve)
    ensures var r := Installed(s, serve);
      && WellFormed(r)
      && CACHE in r.stores
      && (forall p :: p in FILES ==> p in r.stores[CACHE] && r.stores[CACHE][p] == serve[p])
      && (forall n :: n != CACHE ==> (n in r.stores <==> n in s.stores))
      && (forall n :: n != CACHE && n in s.stores ==> r.stores[n] == s.stores[n])
  {
  }

  /** A first install creates a cache with exactly one entry per asset: 32 entries. */
  lemma FirstInstallHoldsManifest(s: Storage, serve: map<Request, Response>)
    requires WellFormed(s) && AllFetched(FILES, serve) && CACHE !in s.stores
    ensures Installed(s, serve).stores[CACHE].Keys == set p | p in FILES
    ensures |Installed(s, serve).stores[CACHE]| == 32
  {
    ManifestDistinct();
    ManifestShape();
    DistinctCardinality(FILES);
  }

  /** Installing again with the same answers gives the same storage. */
  lemma InstallIdempotent(s: Storage, serve: map<Request, Response>)
    requires AllFetched(FILES, serve)
    ensures Installed(Installed(s, serve), serve) == Installed(s, serve)
  {
    var once := Installed(s, serve);
    var entries := ManifestEntries(serve);
    assert once.stores[CACHE] + entries == once.stores[CACHE];
  }

  /** Once installed and activated, a request for any asset is answered with
      the response stored for it at install time. */
  lemma CacheFirstAfterActivation(s: Storage, serve: map<Request, Response>, p: Request)
    requires WellFormed(s) && AllFetched(FILES, serve) && p in FILES
    ensures var r := Installed(s, serve);
      Lookup(DeleteStale(r, r.names, CACHE).names, DeleteStale(r, r.names, CACHE).stores, p)
        == Some(serve[p])
  {
    InstallStoresManifest(s, serve);
    var r := Installed(s, serve);
    CleanupKeepsOnlyTag(r, CACHE);
    var a := DeleteStale(r, r.names, CACHE);
    LookupSingle(a.stores, CACHE, p);
  }

  /** The cleanup of three caches `sketch-v1`, `old-v0` and `other` keeps
      `sketch-v1` alone, with its contents. */
  lemma ActivateExample(s: Storage)
    requires s.names == ["sketch-v1", "old-v0", "other"]
    requires s.stores.Keys == {"sketch-v1", "old-v0", "other"}
    ensures DeleteStale(s, s.names, CACHE) == Storage(["sketch-v1"], map["sketch-v1" := s.stores["sketch-v1"]])
  {
    assert WellFormed(s);
    CleanupKeepsOnlyTag(s, CACHE);
  }
}
