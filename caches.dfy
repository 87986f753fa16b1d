/** The browser's cache storage, at the level the worker relies on: an ordered
    collection of named stores (caches), each a map from request key to stored
    response. The value `Storage` and the functions on it are the specification;
    the class `CacheStorage` is the shared state the worker's handlers change. */
module Caches {
  import opened Outcomes
  import opened Sequences
  import opened Http

  /** One named cache: request key to stored response. */
  type Store = map<Request, Response>

  /** The whole cache storage: store names in creation order, and the stores. */
  datatype Storage = Storage(names: seq<string>, stores: map<string, Store>)

  /** Why `addAll` rejects. */
  datatype CacheError =
    | FetchFailed(request: Request)             // the network gave no response
    | BadStatus(request: Request, status: nat)  // the status is not 200-299, or is 206
    | DuplicateRequests                         // the batch would store one key twice

  /** Every name is listed once, and the list and the stores agree. */
  predicate WellFormed(s: Storage)
  {
    && Distinct(s.names)
    && (forall n :: n in s.names ==> n in s.stores)
    && (forall n :: n in s.stores ==> n in s.names)
  }

  /** `caches.open(name)`: the storage once the named store exists; a new store
      starts empty and goes last in creation order. */
  function Opened(s: Storage, name: string): (r: Storage)
    ensures WellFormed(s) ==> WellFormed(r)
    ensures r.stores.Keys == s.stores.Keys + {name}
    ensures forall n :: n in s.stores ==> r.stores[n] == s.stores[n]
    ensures name !in s.stores ==> r.stores[name] == map[] && r.names == s.names + [name]
    ensures name in s.stores ==> r == s
  {
    if name in s.stores then s
    else Storage(s.names + [name], s.stores[name := map[]])
  }

  /** `caches.delete(name)`: the storage without the named store. */
  function Deleted(s: Storage, name: string): (r: Storage)
    ensures WellFormed(s) ==> WellFormed(r)
    ensures r.stores.Keys == s.stores.Keys - {name}
    ensures forall n :: n in r.stores ==> r.stores[n] == s.stores[n]
    ensures r.names == Remove(s.names, name)
  {
    Storage(Remove(s.names, name), s.stores - {name})
  }

  /** The storage once `entries` have been written into the named store;
      an entry replaces what was stored under the same key. */
  function Populated(s: Storage, name: string, entries: Store): (r: Storage)
    requires name in s.stores
    ensures WellFormed(s) ==> WellFormed(r)
    ensures r.names == s.names && r.stores.Keys == s.stores.Keys
    ensures forall n :: n in s.stores && n != name ==> r.stores[n] == s.stores[n]
    ensures r.stores[name].Keys == s.stores[name].Keys + entries.Keys
    ensures forall k :: k in entries ==> r.stores[name][k] == entries[k]
    ensures forall k :: k in s.stores[name] && k !in entries ==> r.stores[name][k] == s.stores[name][k]
  {
    Storage(s.names, s.stores[name := s.stores[name] + entries])
  }

  /** The store called `name` exists and holds an entry for `request`. */
  predicate Holds(stores: map<string, Store>, name: string, request: Request)
  {
    name in stores && request in stores[name]
  }

  /** `caches.match(request)`: the entry for `request` in the first store, in
      creation order, that has one. */
  function Lookup(names: seq<string>, stores: map<string, Store>, request: Request): Option<Response>
  {
    if names == [] then None
    else if Holds(stores, names[0], request) then Some(stores[names[0]][request])
    else Lookup(names[1..], stores, request)
  }

  /** A lookup misses exactly when no listed store holds the request. */
  lemma {:induction false} LookupMiss(names: seq<string>, stores: map<string, Store>, request: Request)
    ensures Lookup(names, stores, request) == None
        <==> forall i :: 0 <= i < |names| ==> !Holds(stores, names[i], request)
  {
    if names != [] {
      LookupMiss(names[1..], stores, request);
      assert forall i :: 1 <= i < |names| ==> names[i] == names[1..][i - 1];
    }
  }

  /** A lookup answers with the entry of the first store that holds the request. */
  lemma {:induction false} LookupFindsFirst(names: seq<string>, stores: map<string, Store>, request: Request, i: nat)
    requires i < |names| && Holds(stores, names[i], request)
    requires forall j :: 0 <= j < i ==> !Holds(stores, names[j], request)
    ensures Lookup(names, stores, request) == Some(stores[names[i]][request])
  {
    if i > 0 {
      assert !Holds(stores, names[0], request);
      LookupFindsFirst(names[1..], stores, request, i - 1);
    }
  }

  /** When `name` is the only store, a lookup is a lookup in that store. */
  lemma LookupSingle(stores: map<string, Store>, name: string, request: Request)
    requires name in stores
    ensures Lookup([name], stores, request)
         == if request in stores[name] then Some(stores[name][request]) else None
  {
    assert [name][1..] == [];
  }

  /** What activation's cleanup does, step by step: every store in `keys`
      whose name is not `tag` is deleted, in the order of `keys`. */
  function DeleteStale(s: Storage, keys: seq<string>, tag: string): Storage
    decreases keys
  {
    if keys == [] then s
    else DeleteStale(if keys[0] != tag then Deleted(s, keys[0]) else s, keys[1..], tag)
  }

  /** A well-formed storage whose names are all `tag` holds at most that store. */
  lemma OnlyTagLeft(s: Storage, tag: string)
    requires WellFormed(s)
    requires forall i :: 0 <= i < |s.names| ==> s.names[i] == tag
    ensures s == Storage(if tag in s.names then [tag] else [],
                         if tag in s.stores then map[tag := s.stores[tag]] else map[])
  {
    DistinctCardinality(s.names);
    assert (set n | n in s.names) <= {tag};
    if tag in s.names {
      assert (set n | n in s.names) == {tag};
      assert |s.names| == 1 && s.names[0] in s.names;
      assert s.names == [tag];
    } else {
      assert (set n | n in s.names) == {};
    }
    assert s.stores.Keys == if tag in s.stores then {tag} else {};
  }

  /** Cleanup over a suffix of the name list whose prefix holds at most the tag. */
  lemma {:induction false} DeleteStaleSuffix(s: Storage, keys: seq<string>, tag: string)
    requires WellFormed(s)
    requires |keys| <= |s.names| && s.names[|s.names| - |keys|..] == keys
    requires forall i :: 0 <= i < |s.names| - |keys| ==> s.names[i] == tag
    decreases keys
    ensures DeleteStale(s, keys, tag)
         == Storage(if tag in s.names then [tag] else [],
                    if tag in s.stores then map[tag := s.stores[tag]] else map[])
  {
    var p := |s.names| - |keys|;
    var prefix := s.names[..p];
    assert s.names == prefix + keys;
    if keys == [] {
      OnlyTagLeft(s, tag);
    } else if keys[0] == tag {
      assert s.names[..p + 1] == prefix + [tag];
      assert s.names[p + 1..] == keys[1..];
      DeleteStaleSuffix(s, keys[1..], tag);
    } else {
      var next := Deleted(s, keys[0]);
      assert s.names[p] == keys[0];
      RemoveAt(s.names, p);
      assert next.names == prefix + keys[1..];
      assert next.names[..p] == prefix && next.names[p..] == keys[1..];
      DeleteStaleSuffix(next, keys[1..], tag);
      assert keys[0] in s.stores;
    }
  }

  /** Activation's cleanup leaves exactly the store named `tag`, if there was
      one, with its contents untouched; doing it again changes nothing. */
  lemma CleanupKeepsOnlyTag(s: Storage, tag: string)
    requires WellFormed(s)
    ensures var r := DeleteStale(s, s.names, tag);
      && WellFormed(r)
      && r.stores.Keys == s.stores.Keys * {tag}
      && r.names == (if tag in s.stores then [tag] else [])
      && (tag in s.stores ==> r.stores[tag] == s.stores[tag])
      && DeleteStale(r, r.names, tag) == r
  {
    assert s.names[|s.names| - |s.names|..] == s.names;
    DeleteStaleSuffix(s, s.names, tag);
    var r := DeleteStale(s, s.names, tag);
    assert r.names == [] ==> r.stores.Keys == {};
    assert WellFormed(r);
    assert r.names[|r.names| - |r.names|..] == r.names;
    DeleteStaleSuffix(r, r.names, tag);
  }

  /** A response `addAll` accepts: an ok status, but not 206 Partial Content. */
  predicate Storable(r: Response)
  {
    IsOk(r) && r.status != 206
  }

  /** The first failure `addAll` meets among the settled fetches, in list order:
      a request the network did not answer, or an answer it does not accept. */
  function FirstFailure(requests: seq<Request>, serve: map<Request, Response>): Option<CacheError>
  {
    if requests == [] then None
    else if requests[0] !in serve then Some(FetchFailed(requests[0]))
    else if !Storable(serve[requests[0]]) then Some(BadStatus(requests[0], serve[requests[0]].status))
    else FirstFailure(requests[1..], serve)
  }

  /** Every request was answered with a response `addAll` accepts. */
  predicate AllFetched(requests: seq<Request>, serve: map<Request, Response>)
  {
    forall u :: u in requests ==> u in serve && Storable(serve[u])
  }

  /** There is no failure exactly when every request was answered with a
      response `addAll` accepts; a failure names a request of the batch. */
  lemma {:induction false} FirstFailureNone(requests: seq<Request>, serve: map<Request, Response>)
    ensures FirstFailure(requests, serve) == None <==> AllFetched(requests, serve)
    ensures FirstFailure(requests, serve).Some? ==>
      match FirstFailure(requests, serve).value
      case FetchFailed(u) => u in requests && u !in serve
      case BadStatus(u, status) => u in requests && u in serve && status == serve[u].status && !Storable(serve[u])
      case DuplicateRequests => false
  {
    if requests != [] {
      FirstFailureNone(requests[1..], serve);
      assert forall u :: u in requests <==> u == requests[0] || u in requests[1..];
    }
  }

  /** How `cache.addAll(requests)` settles: with the entries to write, or with
      the first failure, or with a rejection of a batch that names a key twice. */
  function AddAllResult(requests: seq<Request>, serve: map<Request, Response>): Result<Store, CacheError>
  {
    match FirstFailure(requests, serve)
    case Some(e) => Failure(e)
    case None =>
      if !Distinct(requests) then Failure(DuplicateRequests)
      else
        FirstFailureNone(requests, serve);
        Success(map u | u in requests :: serve[u])
  }

  /** `addAll` succeeds exactly when every request is answered with an accepted response
      and no request repeats, and it then stores one entry per request, holding
      the network's answer. */
  lemma AddAllSucceeds(requests: seq<Request>, serve: map<Request, Response>)
    ensures AddAllResult(requests, serve).Success?
        <==> AllFetched(requests, serve) && Distinct(requests)
    ensures AddAllResult(requests, serve).Success? ==>
      var entries := AddAllResult(requests, serve).value;
      && entries.Keys == set u | u in requests
      && |entries| == |requests|
      && forall u :: u in requests ==> entries[u] == serve[u]
  {
    FirstFailureNone(requests, serve);
    if AddAllResult(requests, serve).Success? {
      DistinctCardinality(requests);
    }
  }

  /** The cache storage of the browser, changed in place by the worker. */
  class CacheStorage {
    var names: seq<string>
    var stores: map<string, Store>

    /** The current contents as a value. */
    function Snapshot(): Storage
      reads this
    {
      Storage(names, stores)
    }

    ghost predicate Valid()
      reads this
    {
      WellFormed(Snapshot())
    }

    constructor (initial: Storage)
      requires WellFormed(initial)
      ensures Valid() && Snapshot() == initial
    {
      names := initial.names;
      stores := initial.stores;
    }

    /** `caches.keys()`: the store names in creation order. */
    method Keys() returns (keys: seq<string>)
      requires Valid()
      ensures Distinct(keys)
      ensures forall n :: n in keys <==> n in stores
      ensures keys == names
    {
      keys := names;
    }

    /** `caches.open(name)`. */
    method Open(name: string)
      requires Valid()
      modifies this
      ensures Valid()
      ensures Snapshot() == Opened(old(Snapshot()), name)
    {
      if name !in stores {
        names := names + [name];
        stores := stores[name := map[]];
      }
    }

    /** `caches.delete(name)`: resolves with whether there was such a store. */
    method Delete(name: string) returns (existed: bool)
      requires Valid()
      modifies this
      ensures Valid()
      ensures existed == (name in old(stores))
      ensures Snapshot() == Deleted(old(Snapshot()), name)
    {
      existed := name in stores;
      names := Remove(names, name);
      stores := stores - {name};
    }

    /** `caches.match(request)`: looks through the stores in creation order. */
    method Match(request: Request) returns (r: Option<Response>)
      ensures r == Lookup(names, stores, request)
    {
      var i := 0;
      while i < |names|
        invariant 0 <= i <= |names|
        invariant Lookup(names, stores, request) == Lookup(names[i..], stores, request)
      {
        assert names[i..][0] == names[i] && names[i..][1..] == names[i + 1..];
        if names[i] in stores && request in stores[names[i]] {
          return Some(stores[names[i]][request]);
        }
        i := i + 1;
      }
      return None;
    }

    /** `cache.addAll(requests)` on the store called `name`: every request is
        sent to the network; the store is written only if all of them succeed,
        and then all at once. */
    method AddAll(name: string, requests: seq<Request>, net: Network) returns (r: Outcome<CacheError>)
      requires Valid() && name in stores
      modifies this, net`log
      ensures Valid()
      ensures net.log == old(net.log) + requests
      ensures match AddAllResult(requests, net.serve)
        case Success(entries) =>
          r == Pass && Snapshot() == Populated(old(Snapshot()), name, entries)
        case Failure(e) =>
          r == Fail(e) && Snapshot() == old(Snapshot())
    {
      var answers: seq<Result<Response, NetworkError>> := [];
      for i := 0 to |requests|
        invariant Snapshot() == old(Snapshot())
        invariant |answers| == i
        invariant net.log == old(net.log) + requests[..i]
        invariant forall j :: 0 <= j < i ==> answers[j] == net.Answer(requests[j])
      {
        var a := net.Fetch(requests[i]);
        answers := answers + [a];
        assert requests[..i + 1] == requests[..i] + [requests[i]];
      }
      assert requests[..|requests|] == requests;
      for i := 0 to |requests|
        invariant FirstFailure(requests, net.serve) == FirstFailure(requests[i..], net.serve)
        invariant Snapshot() == old(Snapshot())
      {
        assert requests[i..][0] == requests[i] && requests[i..][1..] == requests[i + 1..];
        match answers[i]
        case Failure(_) =>
          return Fail(FetchFailed(requests[i]));
        case Success(response) =>
          if !Storable(response) {
            return Fail(BadStatus(requests[i], response.status));
          }
      }
      if !Distinct(requests) {
        return Fail(DuplicateRequests);
      }
      FirstFailureNone(requests, net.serve);
      stores := stores[name := stores[name] + map u | u in requests :: net.serve[u]];
      r := Pass;
    }
  }
}
