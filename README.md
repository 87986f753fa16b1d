# Offline-caching service worker, modelled in Dafny

This project models `src/sw.js`, a service worker that keeps a web page's
assets available offline. It has two constants and three event handlers:

- `CACHE`, the version tag `"sketch-v1"`, which names the current cache;
- `FILES`, the asset list: `./`, `./index.html`, then thirty frame images
  `./images/frame_01.png` … `./images/frame_30.png`, built with
  `Array.from` and `String(i+1).padStart(2,'0')`;
- **install**: opens (or creates) the cache `CACHE` and `addAll`s every asset;
  one failed fetch fails the whole install;
- **activate**: lists the cache names and deletes every cache not named `CACHE`;
- **fetch**: cache-first; a stored response is returned as is, a miss goes
  to the network and is never written back.

The browser's cache storage is modelled at the level these calls use it
(`caches.open`, `caches.keys`, `caches.delete`, `caches.match`, `cache.addAll`,
after the W3C Service Workers specification): an ordered list of cache names
(creation order) with a map from name to store, and each store a map from
request key (the URL) to response. `Caches.Storage` is that state as a value;
`Caches.CacheStorage` is the class holding it, changed in place by the handlers.
The network is `Http.Network`: what it answers right now (`serve`; a request not
in it fails, as when offline) and the log of requests sent to it. Each handler is
a method that returns what its promise settles with.

Modules: `Outcomes` (Option, Result, Outcome), `Sequences` (no-repetition,
removal, cardinality), `Http` (responses and the network), `Caches` (cache
storage), `Manifest` (the two constants), `Worker` (the three handlers).

Three points where the model follows the code closely:

- The fetch handler calls `caches.match(e.request)` with no cache name, and that
  searches every cache, in creation order. It does not search only `sketch-v1`.
  `Caches.Lookup` models this search. Before activation, an entry in an older
  cache can therefore answer first. After activation only `sketch-v1` is left
  (`Worker.CacheFirstAfterActivation`).
- `addAll` rejects a response whose status is not 200–299, and also one with
  status 206 (Partial Content), as the W3C algorithm does.
- `addAll` is all-or-nothing (the W3C batch semantics). On failure the store
  keeps exactly what it held before. The store itself still exists, because
  `caches.open` has already created it.

## Model

| member | source | states |
|---|---|---|
| Manifest.DecimalString | src/sw.js:6 | `String(n)` for a natural number: decimal digits only, at least one, a single digit exactly when n < 10 |
| Manifest.DecimalStringSpells | src/sw.js:6 | the digits of `String(n)` spell n (against an independent digits-to-number function), with no leading zero unless n is 0 |
| Manifest.PadStart | src/sw.js:6 | `padStart(width, fill)`: the result is `width` long (or the input when longer), ends with the input, and is `fill` before it |
| Manifest.FramePath | src/sw.js:6 | the template literal for frame k: definition; its spelling is stated by `FramePathSpelling` and its inverse by `FrameNumberOfFramePath`/`FramePathOfFrameNumber` |
| Manifest.FILES | src/sw.js:2-7 | the asset list: definition; its meaning is stated by `ManifestShape`, `ManifestFrameNumbers` and `ManifestDistinct` |
| Manifest.FramePaths | src/sw.js:6 | `Array.from({length: count}, …)` has `count` entries (their contents: `Manifest.ManifestEntry`) |
| Manifest.TwoDigits | src/sw.js:6 | below 100, `String(k).padStart(2,'0')` is exactly the tens digit then the units digit of k |
| Manifest.FramePathSpelling | src/sw.js:6 | the path of frame k < 100 is `./images/frame_` + two digits of k + `.png`, 21 characters |
| Manifest.FrameNumberOfFramePath | src/sw.js:6 | parsing the number back out of the path of frame k gives k (round trip) |
| Manifest.FramePathOfFrameNumber | src/sw.js:6 | every string of the form `./images/frame_NN.png` is the path of frame NN (the other direction of the round trip) |
| Manifest.FramePathInjective | src/sw.js:6 | different frames below 100 get different paths |
| Manifest.ManifestEntry | src/sw.js:2-7 | the manifest has 32 entries and entry i ≥ 2 is the path of frame i − 1 |
| Manifest.ManifestShape | src/sw.js:2-7 | 32 entries: `./` first, `./index.html` second, then entry k + 1 is frame k spelled with two zero-padded digits, for k = 1..30 |
| Manifest.ManifestFrameNumbers | src/sw.js:2-7 | the image entries carry frame numbers 1, 2, …, 30 in order with no gap; the first two entries are not frame paths |
| Manifest.ManifestDistinct | src/sw.js:2-7 | no asset is listed twice |
| Manifest.ManifestExamples | src/sw.js:2-7 | entries 2, 10, 11 and 31 are `frame_01`, `frame_09`, `frame_10` and `frame_30` |
| Http.Network.Answer | src/sw.js:18 | what `fetch(request)` settles with: the network's response when it has one for the request, otherwise a failure naming the request |
| Http.Network.Fetch | src/sw.js:18 | `fetch(request)` sends the request exactly once (the log grows by it) and settles with the network's current answer |
| Caches.Opened | src/sw.js:10 | `caches.open(name)`: afterwards the cache exists; an existing cache leaves the storage as it was; a new one is empty and goes last in creation order; well-formedness is kept |
| Caches.Populated | src/sw.js:10 | writing entries into one cache gives it every written key with the written response, keeps its other entries and leaves every other cache alone |
| Caches.Deleted | src/sw.js:14 | `caches.delete(name)`: the name is gone, every other cache is unchanged, well-formedness is kept |
| Caches.Lookup | src/sw.js:18 | `caches.match` over every cache in creation order: definition; its meaning is stated by `LookupMiss` and `LookupFindsFirst` |
| Caches.LookupMiss | src/sw.js:18 | `caches.match` misses if and only if no cache holds the request |
| Caches.LookupFindsFirst | src/sw.js:18 | `caches.match` answers with the entry of the first cache, in creation order, that holds the request |
| Caches.LookupSingle | src/sw.js:18 | with a single cache, a match is a lookup in that cache |
| Caches.DeleteStale | src/sw.js:14 | `keys.map(k => k!==CACHE && caches.delete(k))` as a fold of deletions: definition; its result is stated by `CleanupKeepsOnlyTag` |
| Caches.OnlyTagLeft | src/sw.js:14 | a storage whose names all equal the tag holds just the tag's cache, or nothing |
| Caches.DeleteStaleSuffix | src/sw.js:14 | deleting, one after another, every listed name other than the tag leaves the tag's cache alone (the generalised induction) |
| Caches.CleanupKeepsOnlyTag | src/sw.js:14 | after cleanup the cache names are the old ones intersected with {tag}; the tag's cache is unchanged; a second cleanup changes nothing |
| Caches.FirstFailure | src/sw.js:10 | the first rejection `addAll` meets, in list order: definition; its meaning is stated by `FirstFailureNone` |
| Caches.AddAllResult | src/sw.js:10 | how `addAll` settles: definition; its meaning is stated by `AddAllSucceeds` |
| Caches.FirstFailureNone | src/sw.js:10 | `addAll` meets no failure if and only if every request is answered with status 200–299 other than 206; a failure names a failing request of the batch |
| Caches.AddAllSucceeds | src/sw.js:10 | `addAll` succeeds if and only if every request gets an ok, non-206 answer and none repeats; it then stores one entry per request, holding the network's answer |
| Caches.CacheStorage.Keys | src/sw.js:14 | `caches.keys()` lists each existing cache name once, in creation order |
| Caches.CacheStorage.Open | src/sw.js:10 | the storage afterwards is `Opened` of the storage before |
| Caches.CacheStorage.Delete | src/sw.js:14 | the storage afterwards is `Deleted` of the one before; the result says whether the cache existed |
| Caches.CacheStorage.Match | src/sw.js:18 | the loop over the caches in creation order returns exactly `Lookup` |
| Caches.CacheStorage.AddAll | src/sw.js:10 | every request is sent; on success the cache is `Populated` with the answers; on failure the storage is unchanged and the error is returned |
| Worker.ManifestEntries | src/sw.js:10 | the entries an install writes: one per asset, holding the network's answer |
| Worker.Installed | src/sw.js:10 | the storage after a successful install: definition; its meaning is stated by `InstallStoresManifest`, `FirstInstallHoldsManifest` and `InstallIdempotent` |
| Worker.OnInstall | src/sw.js:9-12 | every asset is requested; success if and only if every asset is fetched with an ok status other than 206; on success the storage is `Installed`; on failure only the empty `sketch-v1` cache may have been added |
| Worker.OnActivate | src/sw.js:13-16 | the storage afterwards is the step-by-step deletion of every name other than `sketch-v1`; the names are the old ones intersected with {`sketch-v1`}; the `sketch-v1` cache is unchanged |
| Worker.OnFetch | src/sw.js:17-19 | a hit returns the stored response and sends nothing; a miss sends the request once and returns the network's answer or failure; the storage never changes |
| Worker.FetchMissTwice | src/sw.js:18 | because a miss is not stored, asking twice for a missing request sends it to the network twice |
| Worker.InstallStoresManifest | src/sw.js:10 | after a successful install, `sketch-v1` holds every asset with the network's answer, and the other caches are exactly as before |
| Worker.FirstInstallHoldsManifest | src/sw.js:10 | a first install leaves exactly the 32 assets in `sketch-v1`, one entry each |
| Worker.InstallIdempotent | src/sw.js:10 | installing twice with the same answers gives the same storage as installing once |
| Worker.CacheFirstAfterActivation | src/sw.js:10-18 | after install and activate, a request for any asset is answered with the response stored at install |
| Worker.ActivateExample | src/sw.js:14 | caches {`sketch-v1`, `old-v0`, `other`} become {`sketch-v1`}, with its contents kept |

## Left out

- `self.skipWaiting()` (line 11) and `self.clients.claim()` (line 15): these are browser lifecycle and client-control effects with no logic of their own.
- `e.waitUntil`, `e.respondWith` and `self.addEventListener`: this is host event dispatch. Each handler is a synchronous method that returns what its promise settles with.
- Interleaving of install, activate and fetch across overlapping worker versions: the file does nothing about concurrency. The deletions that `Promise.all` runs together are modelled one after another. They target distinct names, so the final state is the same.
- A failed `caches.delete` in activation: the code ignores deletion results, and the model treats deletion as always succeeding.
- Request normalisation, `Vary` handling, headers and bodies: requests are URL keys and responses are opaque apart from their status.
- The per-request checks `addAll` makes before fetching (method GET, http(s) scheme): the asset paths always pass them.
- Caches.CacheStorage.AddAll: every request of the batch is recorded as sent, even when an earlier one fails. The browser may abort the outstanding fetches once one fails. When several requests fail, the model reports the first failure in list order; the browser reports whichever rejection settles first.
- Http.Network.Fetch: real network I/O is replaced by an oracle. `serve` gives the current answer for each URL, and a URL without an answer fails. The model does not capture a network that hangs forever.
