# sw-offline-cache in Dafny

A model of `OfflineCache`, the IndexedDB wrapper of sw-offline-cache. The
cache keeps map tiles and locally made edits in one versioned browser
database. It has two object stores:

- `tile`, keyed by each tile's `src`;
- `edit`, keyed by a synthetic `key`.

Each edit is stored inside an envelope `{timestamp, edit, key}`. Its key is
the timestamp in decimal, `_`, and a random fragment. `addEdit` skips an edit
whose payload is already stored, unless it is called with `replace === false`.
`getAllEdits` returns the edits sorted by ascending timestamp, either as
payloads or as whole envelopes.

The project has these modules:

- `JsValues` (`js_values.dfy`): JavaScript values as a datatype. Property
  access, truthiness, `Number.isInteger`, and IndexedDB's valid-key test.
  `nano-equal` deep equality is equality of these values.
- `ObjectStores` (`object_stores.dfy`): one object store with an in-line key
  path. Its `put`, `get`, `delete` and `count` primitives are functions
  from the store before to the result and the store after. What `getAll`
  may return is described by `IsListing` and `Lookup` (an enumeration of
  the keys and the records fetched in that order). The module proves that
  any two such enumerations fetch the same multiset of records. The
  `getAll` loop itself is `Cache.OfflineCache.GetAll`.
- `Schema` (`schema.dfy`): the database as the engine keeps it between
  connections (a version and named stores), and `createSchema` in two forms:
  as written and as intended (see Findings).
- `EditKeys` (`edit_keys.dfy`): how `addEdit` defaults `replace` and
  `timestamp`, renders the timestamp with `String`, builds the key and the
  envelope. It has a parser that reads a key back.
- `EditOrder` (`edit_order.dfy`): the timestamp sort inside `getAllEdits`,
  as an in-place insertion sort on an array. Also the projection to
  payloads, and the proof that distinct timestamps leave only one sorted
  order.
- `OrderingScenario` (`ordering_scenario.dfy`): the six edits of the test
  file's ordering scenario, and the one order in which they can come back
  sorted.
- `EditDedup` (`edit_dedup.dfy`): the linear duplicate scan of `addEdit`,
  and what one or many calls do to the edit store, with and without
  `replace`.
- `Cache` (`offline_cache.dfy`): the class `OfflineCache`. Its fields are the
  version it asks for (the constant `version`, the closure variable
  `dbVersion`), the connection handle (`connected`, the closure variable
  `db`) and the database it reaches (`disk`). It has one method per operation. Each
  method returns the value its promise settles with: `Ok`/`Pass` when the
  promise resolves, and `Err`/`Fail` with the error when it rejects.
- `CacheScenarios` (`cache_scenarios.dfy`): the repository's usage scenarios
  (its test file) driven through the class. Each one states the outcome the
  scenario checks.

## Model

| member | source | states |
|---|---|---|
| ObjectStores.Put | index.js:73-83 | `put` is an upsert by the item's own key. It fails with DataError exactly when the key path yields no valid key. Otherwise the item is stored under that key, every other record and the key path are kept, and every record stays under its own key. |
| ObjectStores.Get | index.js:95-105 | `get` fails with DataError exactly for an invalid key. It returns the record exactly when the key is present, and nothing otherwise. |
| ObjectStores.Delete | index.js:135-145 | `delete` fails with DataError exactly for an invalid key. Otherwise only that key leaves the store (a missing key is not an error), and every remaining record is unchanged. |
| ObjectStores.PutThenGet | index.js:73-105 | A `get` of the key just put returns the item that was put. |
| ObjectStores.PutCount | index.js:153-163 | After a put, the count grows by one for a new key and stays the same for an existing key. |
| ObjectStores.DeleteUndoesPut | index.js:135-145 | Deleting the key of an item just put into a store that lacked it restores the store. |
| ObjectStores.DeleteCount | index.js:135-145 | After a delete the key is gone, and the count drops by one exactly when the key was present. |
| ObjectStores.PutAllCount | index.js:73-83 | Putting n items with distinct, new keys raises the count by n, and each item can be found under its key. |
| ObjectStores.PutAllKeepsOthers | index.js:73-83 | Putting items leaves alone every key none of them carries. |
| ObjectStores.ListingLength | index.js:116-126 | A `getAll` enumeration holds as many records as `count` reports. |
| ObjectStores.ListingsArePermutations | index.js:116-126 | Any two enumerations `getAll` may return are permutations of each other. |
| Schema.WithSchemaAsWritten | index.js:28-37 | `createSchema` as written: it succeeds exactly when neither store exists yet, and then yields the intended schema. Otherwise it fails with ConstraintError. |
| Schema.WithSchema | index.js:28-37 | The intended `createSchema`: afterwards both stores exist. A store that was missing is created empty, with key path `src` or `key`. Existing stores and their records are kept, and well-formedness is preserved. |
| Schema.AsWrittenCreatesFreshSchema | index.js:28-37 | On a new database, `createSchema` as written creates exactly the intended schema. |
| Schema.AsWrittenRejectsLaterUpgrades | index.js:30-31 | As written, `createSchema` fails with ConstraintError on any database that already has the schema. |
| Schema.WithSchemaIsIdempotent | index.js:28-37 | Creating the schema a second time changes nothing. |
| EditKeys.ResolveReplace | index.js:235 | Replacing is off exactly when `replace` is the value `false`. |
| EditKeys.FalsyValuesStillReplace | index.js:235 | `undefined`, `null`, `0` and `""` all leave replacing on, although `0` is falsy. |
| EditKeys.ResolveTimestamp | index.js:236 | An integer timestamp is kept. Any other value is replaced by the current time. |
| EditKeys.NatDecimal | index.js:237 | The digits of a natural number are never empty, have no leading zero, and are one digit long exactly below 10. |
| EditKeys.Decimal | index.js:237 | `String` of an integer starts with `-` exactly when the integer is negative, and never contains `_`. |
| EditKeys.NatDecimalRoundTrip | index.js:237 | Reading the digits back gives the number. |
| EditKeys.DecimalRoundTrip | index.js:237 | Reading `String(t)` back gives `t`. |
| EditKeys.EditKey | index.js:237-239 | The key is the decimal timestamp, then `_` at that position, then the fragment. |
| EditKeys.EditKeyRoundTrip | index.js:237-239 | Splitting a key at its first `_` recovers the timestamp and the fragment, whatever the fragment holds. |
| EditKeys.EditKeyInjective | index.js:237-239 | Two keys are equal only when both their timestamps and their fragments are equal. |
| EditKeys.Envelope | index.js:240 | The envelope has exactly the fields `timestamp`, `edit` and `key`, holding the given values. |
| EditDedup.EnvelopeFor | index.js:237-240 | The envelope of an edit sits under the key `<timestamp>_<fragment>` and carries the edit and the timestamp. |
| EditDedup.AddEditEffect | index.js:242-252 | After one `addEdit` call (`AddEditRecords`), the payload is stored. At most the new synthetic key has been added, and no other record has changed. A skipped duplicate changes nothing. |
| EditDedup.AddEditResolves | index.js:242-252 | The call resolves (`AddEditResult`) with the caller's `edit` when it skips a duplicate. Otherwise it resolves with the envelope it stored under the synthetic key. |
| EditDedup.ScanForDuplicate | index.js:244-248 | The scan reports a duplicate exactly when some fetched envelope's `edit` equals the new edit. |
| EditDedup.ScanMatchesStore | index.js:243-249 | Scanning any `getAll` enumeration finds a duplicate exactly when the store holds an envelope with that payload. |
| EditDedup.DuplicatesAreSkipped | index.js:242-251 | Once a payload is stored, any number of further replacing calls with it leave the store unchanged. |
| EditDedup.DedupStoresOnce | index.js:242-252 | Repeated replacing calls with a new payload grow the store by exactly one. Exactly one envelope then carries the payload, under the first call's key. |
| EditDedup.NoDedupInsertsEach | index.js:252 | Non-replacing calls with distinct new keys add one envelope per call, even when the payload is already stored. |
| EditOrder.Payloads | index.js:285-286 | The projection `sorted.map(e => e.edit)`: as many entries as envelopes, and entry i is the `edit` field of envelope i. |
| EditOrder.SortByTimestamp | index.js:282-284 | The array ends sorted by ascending `timestamp` and is a permutation of what it held. |
| EditOrder.SortedIsUnique | index.js:282-284 | With distinct timestamps, a collection has only one sorted arrangement. The result therefore does not depend on the order `getAll` returned. |
| OrderingScenario.OrderingTestSorted | test.js:31-45 | Every sorted permutation of the six test edits (payloads -3..2 at timestamps 97, 98, 99, 100, 89, 78) is the single arrangement at timestamps 78, 89, 97, 98, 99, 100. |
| OrderingScenario.OrderingTestPayloads | test.js:31-45 | In that arrangement the payloads read 2, 1, -3, -2, -1, 0. |
| OrderingScenario.OrderingTestStamps | test.js:47-71 | In that arrangement the envelopes carry the timestamps 78, 89, 97, 98, 99, 100. |
| Cache.OfflineCache.constructor | index.js:13-23 | With a database name given, the version asked for is `databaseVersion`, or 1 when it is falsy. The cache starts without a handle. |
| Cache.OfflineCache.CreateSchema | index.js:28-37 | With a handle, the stores become the intended schema. Without one, nothing changes. |
| Cache.OfflineCache.Open | index.js:173-191 | It rejects with TypeError for a version below 1, with the engine's error, or with VersionError for a newer database. Otherwise it sets the handle and ends at the requested version. The schema is created when the database is new or older, and nothing else changes when the versions are equal. |
| Cache.OfflineCache.Close | index.js:201-213 | It resolves exactly when there was a handle, and rejects otherwise. Afterwards there is no handle, and the database is unchanged. |
| Cache.OfflineCache.Add | index.js:73-83 | It rejects with TypeError without a handle, NotFoundError for a missing store, or the put's error. Otherwise it resolves with the item, and only the named store changes, exactly as `put` says. |
| Cache.OfflineCache.Get | index.js:95-105 | It rejects with TypeError without a handle, or NotFoundError for a missing store. Otherwise it returns what the store's `get` returns. |
| Cache.OfflineCache.GetAll | index.js:116-126 | It rejects with TypeError without a handle, or NotFoundError for a missing store. Otherwise it returns each record of the store exactly once, in the enumeration order it also returns. |
| Cache.OfflineCache.Remove | index.js:135-145 | It rejects as `add` does, or with the delete's error. Otherwise it resolves with the key, and only the named store changes, exactly as `delete` says. |
| Cache.OfflineCache.Count | index.js:153-163 | It rejects as `get` does. Otherwise it returns the number of distinct keys in the store, which is what the store's `count()` (`ObjectStores.Count`) returns. |
| Cache.OfflineCache.AddEdit | index.js:234-253 | It rejects without a handle or without the edit store. Otherwise the resolved value and the new edit store are those of one call: on a duplicate it returns the caller's edit and stores nothing, else it stores the envelope under its synthetic key and returns the envelope. Every other store is unchanged. |
| Cache.OfflineCache.AddTile | index.js:264-266 | It rejects with DataError when `src` is not a valid key. Otherwise the tile store maps `src` to the tile, the tile is returned, and every other store is unchanged. |
| Cache.OfflineCache.GetAllEdits | index.js:278-290 | The result is a permutation of the stored envelopes, sorted by ascending timestamp. It is returned as the envelopes when `keepMeta` is truthy, and as their payloads otherwise. |
| Cache.OfflineCache.GetTile | index.js:301-303 | It returns the tile stored under `src`, if any, and any tile returned carries that `src`. It rejects with DataError for an invalid `src`. |
| Cache.OfflineCache.RemoveEdit | index.js:311-313 | For a valid key, it resolves with the key, and the edit store loses exactly that key. Every other store is unchanged. |
| Cache.OfflineCache.RemoveTile | index.js:321-323 | For a valid key, it resolves with the key, and the tile store loses exactly that key. Every other store is unchanged. |
| Cache.OfflineCache.EditCount | index.js:330-332 | It returns the number of stored edits. |
| Cache.OfflineCache.TileCount | index.js:339-341 | It returns the number of stored tiles. |
| CacheScenarios.OpenFresh | test.js:7-14 | Opening a new database at version 1 creates both stores, empty, with their key paths. |
| CacheScenarios.Lifecycle | test.js:165-174 | `close` before `open` rejects. After `open` both stores exist, the first `close` resolves, and a second `close` rejects. |
| CacheScenarios.UpgradeKeepsRecords | index.js:186-189 | Reopening a version-1 database at version 2 resolves and keeps every store and record (with the corrected `createSchema`). |
| CacheScenarios.TileRoundTrip | test.js:21-29 | A tile that was set is returned by `getTile` of its `src`. |
| CacheScenarios.TileUpsert | index.js:264-266 | A second tile with the same `src` replaces the first, and the count stays 1. |
| CacheScenarios.NumberedTiles | test.js:120-132 | Adding the tiles `{src: String(i), value: i}` for i below n leaves n tiles. |
| CacheScenarios.RemoveTileScenario | test.js:151-163 | Adding a tile and removing it by its `src` leaves no tiles. |
| CacheScenarios.RemoveEditScenario | test.js:134-149 | `addEdit(123)` stores one envelope, keyed by the current time and the fragment. Removing that envelope's key, read back with `getAllEdits(true)`, leaves no edits. |
| CacheScenarios.RepeatedEditStoredOnce | index.js:242-251 | Three replacing `addEdit` calls with the same payload leave one edit. |
| CacheScenarios.OrderingStoreSorted | test.js:31-45 | Whatever order the engine lists the six test envelopes in, sorting them yields payloads 2, 1, -3, -2, -1, 0. |
| CacheScenarios.OrderedEdits | test.js:31-71 | Six non-replacing `addEdit(i, false, ts)` calls come back from `getAllEdits(false)` as 2, 1, -3, -2, -1, 0. From `getAllEdits(true)` they come back with timestamps 78, 89, 97, 98, 99, 100 and the same payloads. `editCount` is 6 (test.js:104-118). |
| CacheScenarios.AddThriceReplacing | index.js:242-251 | For a new payload, three replacing calls add exactly the first call's envelope. |
| CacheScenarios.DedupOrderedEdits | test.js:73-102 | Each of the six edits added three times with replacing on leaves six edits, returned as 2, 1, -3, -2, -1, 0. |

## Left out

- Transaction and request failures the engine reports on its own are not modelled: aborts, quota exhaustion, I/O errors (`onerror`/`onabort` in index.js:49-61). In the model an operation fails only for the reasons listed in its contract: no handle, missing store, invalid key, version.
- The constructor's database-name check is not modelled: the model assumes a name is given. Without a name, index.js:21-22 never run, so `dbVersion` stays undefined too, and `open` then calls `indexedDB.open(undefined, undefined)`. That opens a database named "undefined" at its current version (or creates it at version 1). The database name itself is not modelled: one cache reaches one database. `console.error` logging is not modelled.
- Cache.OfflineCache.constructor: requires that an existing `tile` store has the key path `src` and an existing `edit` store has the key path `key`, and that every record sits under its own key. A database created with other key paths under those names is not modelled.
- `databaseVersion` is an integer, where 0 stands for every falsy value. Non-integer versions are not modelled.
- `Date.now()` and `Math.random().toString(36).substring(7)` are parameters (`now`, `fragment`). The fragment may be any string.
- `String(timestamp)` is modelled as the exact plain decimal of the integer. This agrees with JavaScript only for |t| <= 2^53. Above that, JavaScript prints the shortest digits that round-trip, padded with zeros (`String(2**60)` is "1152921504606847000", not "1152921504606846976"), and from 1e21 on it uses the exponent form. Neither is modelled. `Date.now()` is far below 2^53.
- Keys are numbers, strings and arrays of keys. Dates, binary keys, NaN and the infinities are not modelled. Numbers are reals.
- Structured cloning is identity: a stored value is returned equal to the one that was put. `nano-equal` is equality of values, so its handling of NaN, dates and prototypes is not modelled.
- Cache.OfflineCache.Open: follows the corrected `createSchema` (`Schema.WithSchema`) on an upgrade. As written, upgrading a database that already holds both stores throws ConstraintError inside `onupgradeneeded`, the version change aborts, and `open` rejects (index.js:177-179); see Findings and `Schema.AsWrittenRejectsLaterUpgrades`. On that path `db` stays assigned, because index.js:187 sets it before `createSchema` throws; the model's `Open` does not have that rejection, nor the handle it leaves set.
- Cache.OfflineCache.Open: the `blocked` and `versionchange` events and concurrent connections are not modelled. Any other engine failure comes in as the `engineError` parameter.
- Cache.OfflineCache.GetAll: claims every record exactly once in some order. It does not claim the ascending key order IndexedDB uses, because the cache relies on no order.
- EditOrder.SortByTimestamp: claims sorted and a permutation. It does not claim that `Array.prototype.sort` is stable, so equal timestamps may come out in any order.
- EditOrder.Stamp: a record without a numeric `timestamp` sorts as 0, whereas the comparator would yield NaN. Only envelopes, which always have one, reach the edit store.
- Concurrency is not modelled. Every call completes before the next starts. The race in which two concurrent replacing `addEdit` calls both insert is outside the model, and so are calls issued before `open` settles. The scenarios that use `Promise.all` are modelled as sequential calls.
- A call to `open` while a handle exists replaces the handle. Closing the previous connection is not modelled.

## Findings

| source | as written | input that shows it | evidently intended | confidence | as-written member | corrected member |
|---|---|---|---|---|---|---|
| index.js:28-37 | On every `upgradeneeded`, `createSchema` calls `createObjectStore` for both stores, including stores that already exist. The engine throws ConstraintError, which aborts the version change, so `open` rejects. | A database at version 1 with both stores, opened by `new OfflineCache(name, 2)` | Create only the stores that are missing, and keep the existing stores and their records | not executed | Schema.AsWrittenRejectsLaterUpgrades | Schema.WithSchema |
