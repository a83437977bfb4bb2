/** `OfflineCache`: a connection handle that `open` sets and `close` clears,
    the generic store operations over that handle, and the tile and edit
    operations built on them. Each asynchronous operation is modelled as a
    method that returns its settled result: `Ok`/`Pass` where the promise
    resolves, `Err`/`Fail` with the error where it rejects. */
module Cache {
  import opened JsValues
  import opened ObjectStores
  import opened EditKeys
  import opened EditOrder
  import opened EditDedup
  import opened Schema

  class OfflineCache {
    /** `dbVersion`: the version asked for, `databaseVersion || 1`. */
    const version: int
    /** Whether the closure variable `db` holds an open connection. */
    var connected: bool
    /** The named database as the engine keeps it; it outlives connections. */
    var disk: Database

    ghost predicate Valid()
      reads this
    {
      WellFormed(disk.stores)
    }

    /** The records of the named store, empty when there is no such store. */
    function Records(name: string): (records: map<Value, Value>)
      reads this
    {
      if name in disk.stores then disk.stores[name].records else map[]
    }

    /** A cache over the database `existing`, not yet open. A version of 0
        stands for an absent (falsy) `databaseVersion`. */
    constructor (databaseVersion: int, existing: Database)
      requires WellFormed(existing.stores)
      ensures Valid() && !connected && disk == existing
      ensures version == if databaseVersion == 0 then 1 else databaseVersion
    {
      version := if databaseVersion == 0 then 1 else databaseVersion;
      connected := false;
      disk := existing;
    }

    /** `createSchema`: creates the two stores when there is a handle;
        without one it only logs. */
    method CreateSchema()
      requires Valid()
      modifies this
      ensures Valid() && connected == old(connected) && disk.version == old(disk.version)
      ensures disk.stores == if connected then WithSchema(old(disk.stores)) else old(disk.stores)
    {
      if connected {
        disk := disk.(stores := WithSchema(disk.stores));
      }
    }

    /** `open`: rejects with TypeError for a version below 1, with the engine's
        error when it reports one, and with VersionError when the database is
        newer; otherwise sets the handle, upgrading (and creating the schema)
        when the database is older than `version` or does not exist. */
    method Open(engineError: Option<string>) returns (r: Outcome)
      requires Valid()
      modifies this
      ensures Valid()
      ensures r == if version < 1 then Fail(TypeError)
                   else if engineError.Some? then Fail(EngineError(engineError.value))
                   else if version < old(disk.version) then Fail(VersionError)
                   else Pass
      ensures r.Fail? ==> connected == old(connected) && disk == old(disk)
      ensures r.Pass? ==> connected && disk.version == version
      ensures r.Pass? && old(disk.version) < version ==> disk.stores == WithSchema(old(disk.stores))
      ensures r.Pass? && old(disk.version) == version ==> disk == old(disk)
    {
      if version < 1 {
        return Fail(TypeError);
      }
      if engineError.Some? {
        return Fail(EngineError(engineError.value));
      }
      if version < disk.version {
        return Fail(VersionError);
      }
      if disk.version < version {
        // onupgradeneeded
        connected := true;
        CreateSchema();
        disk := disk.(version := version);
      }
      // onsuccess
      connected := true;
      return Pass;
    }

    /** `close`: rejects when there is no handle, else clears it. */
    method Close() returns (r: Outcome)
      modifies this
      ensures r == if old(connected) then Pass else Fail(CloseError)
      ensures !connected && disk == old(disk)
    {
      if connected {
        connected := false;
        return Pass;
      }
      return Fail(CloseError);
    }

    /** `add`: puts `item` into the named store and resolves with `item`. */
    method Add(storeName: string, item: Value) returns (r: Result<Value>)
      requires Valid()
      modifies this
      ensures Valid() && connected == old(connected) && disk.version == old(disk.version)
      ensures !connected ==> r == Err(TypeError) && disk == old(disk)
      ensures connected && storeName !in old(disk.stores) ==> r == Err(NotFoundError) && disk == old(disk)
      ensures connected && storeName in old(disk.stores) ==>
        var put := Put(old(disk.stores[storeName]), item);
        && (put.Err? ==> r == Err(put.error) && disk == old(disk))
        && (put.Ok? ==> r == Ok(item) && disk.stores == old(disk.stores)[storeName := put.value])
    {
      if !connected {
        return Err(TypeError);
      }
      if storeName !in disk.stores {
        return Err(NotFoundError);
      }
      var put := Put(disk.stores[storeName], item);
      if put.Err? {
        return Err(put.error);
      }
      disk := disk.(stores := disk.stores[storeName := put.value]);
      return Ok(item);
    }

    /** `get`: the record under `key` in the named store, or None. */
    method Get(storeName: string, key: Value) returns (r: Result<Option<Value>>)
      ensures !connected ==> r == Err(TypeError)
      ensures connected && storeName !in disk.stores ==> r == Err(NotFoundError)
      ensures connected && storeName in disk.stores ==> r == ObjectStores.Get(disk.stores[storeName], key)
    {
      if !connected {
        return Err(TypeError);
      }
      if storeName !in disk.stores {
        return Err(NotFoundError);
      }
      return ObjectStores.Get(disk.stores[storeName], key);
    }

    /** `getAll`: every record of the named store, each once, in the order
        the engine enumerates them (no order is relied on); `keys` lists the
        keys they sit under. */
    method GetAll(storeName: string) returns (r: Result<seq<Value>>, ghost keys: seq<Value>)
      ensures !connected ==> r == Err(TypeError)
      ensures connected && storeName !in disk.stores ==> r == Err(NotFoundError)
      ensures connected && storeName in disk.stores ==>
        && IsListing(Records(storeName), keys)
        && r == Ok(Lookup(Records(storeName), keys))
    {
      keys := [];
      if !connected {
        return Err(TypeError), keys;
      }
      if storeName !in disk.stores {
        return Err(NotFoundError), keys;
      }
      var records := disk.stores[storeName].records;
      var remaining := records.Keys;
      var values := [];
      while remaining != {}
        invariant remaining <= records.Keys
        invariant forall i :: 0 <= i < |keys| ==> keys[i] in records && keys[i] !in remaining
        invariant forall k :: k in records ==> k in keys || k in remaining
        invariant forall i, j :: 0 <= i < j < |keys| ==> keys[i] != keys[j]
        invariant |values| == |keys|
        invariant forall i :: 0 <= i < |keys| ==> values[i] == records[keys[i]]
        decreases remaining
      {
        var k :| k in remaining;
        values := values + [records[k]];
        keys := keys + [k];
        remaining := remaining - {k};
      }
      assert values == Lookup(records, keys);
      return Ok(values), keys;
    }

    /** `remove`: deletes the record under `key`, present or not, and resolves with `key`. */
    method Remove(storeName: string, key: Value) returns (r: Result<Value>)
      requires Valid()
      modifies this
      ensures Valid() && connected == old(connected) && disk.version == old(disk.version)
      ensures !connected ==> r == Err(TypeError) && disk == old(disk)
      ensures connected && storeName !in old(disk.stores) ==> r == Err(NotFoundError) && disk == old(disk)
      ensures connected && storeName in old(disk.stores) ==>
        var deleted := Delete(old(disk.stores[storeName]), key);
        && (deleted.Err? ==> r == Err(deleted.error) && disk == old(disk))
        && (deleted.Ok? ==> r == Ok(key) && disk.stores == old(disk.stores)[storeName := deleted.value])
    {
      if !connected {
        return Err(TypeError);
      }
      if storeName !in disk.stores {
        return Err(NotFoundError);
      }
      var deleted := Delete(disk.stores[storeName], key);
      if deleted.Err? {
        return Err(deleted.error);
      }
      disk := disk.(stores := disk.stores[storeName := deleted.value]);
      return Ok(key);
    }

    /** `count`: the number of records in the named store. */
    method Count(storeName: string) returns (r: Result<nat>)
      ensures !connected ==> r == Err(TypeError)
      ensures connected && storeName !in disk.stores ==> r == Err(NotFoundError)
      ensures connected && storeName in disk.stores ==> r == Ok(|Records(storeName)|)
    {
      if !connected {
        return Err(TypeError);
      }
      if storeName !in disk.stores {
        return Err(NotFoundError);
      }
      return Ok(ObjectStores.Count(disk.stores[storeName]));
    }

    /** `addEdit(edit, replace, timestamp)`, with `Date.now()` and the random
        key fragment passed in as `now` and `fragment`. When replacing and an
        equal payload is stored it resolves with `edit` and stores nothing;
        otherwise it puts the envelope and resolves with it. */
    method AddEdit(edit: Value, replace: Value, timestamp: Value, now: int, fragment: string)
      returns (r: Result<Value>)
      requires Valid()
      modifies this
      ensures Valid() && connected == old(connected) && disk.version == old(disk.version)
      ensures !connected ==> r == Err(TypeError) && disk == old(disk)
      ensures connected && EditStore !in old(disk.stores) ==> r == Err(NotFoundError) && disk == old(disk)
      ensures connected && EditStore in old(disk.stores) ==>
        var flag := ResolveReplace(replace);
        var t := ResolveTimestamp(timestamp, now);
        var m := old(Records(EditStore));
        && r == Ok(AddEditResult(m, edit, flag, t, fragment))
        && disk.stores == old(disk.stores)[EditStore := old(disk.stores[EditStore]).(
             records := AddEditRecords(m, edit, flag, t, fragment))]
    {
      var flag := ResolveReplace(replace);
      var t := ResolveTimestamp(timestamp, now);
      var key := EditKey(t, fragment);
      var envelope := Envelope(t, edit, key);
      if flag {
        var all;
        ghost var keys;
        all, keys := GetAll(EditStore);
        if all.Err? {
          return Err(all.error);
        }
        var duplicate := ScanForDuplicate(all.value, edit);
        ScanMatchesStore(Records(EditStore), keys, edit);
        if duplicate {
          return Ok(edit);
        }
      }
      r := Add(EditStore, envelope);
    }

    /** `addTile`: puts the tile under its `src`. */
    method AddTile(tile: Value) returns (r: Result<Value>)
      requires Valid()
      modifies this
      ensures Valid() && connected == old(connected) && disk.version == old(disk.version)
      ensures !connected ==> r == Err(TypeError) && disk == old(disk)
      ensures connected && TileStore !in old(disk.stores) ==> r == Err(NotFoundError) && disk == old(disk)
      ensures connected && TileStore in old(disk.stores) && KeyOf(tile, "src").None? ==>
        r == Err(DataError) && disk == old(disk)
      ensures connected && TileStore in old(disk.stores) && KeyOf(tile, "src").Some? ==>
        && r == Ok(tile)
        && disk.stores == old(disk.stores)[TileStore := old(disk.stores[TileStore]).(
             records := old(Records(TileStore))[KeyOf(tile, "src").value := tile])]
    {
      ghost var before := Records(TileStore);
      r := Add(TileStore, tile);
      if r.Ok? {
        assert Records(TileStore) == before[KeyOf(tile, "src").value := tile];
      }
    }

    /** `getTile`: the tile stored under `src`, or None. */
    method GetTile(src: Value) returns (r: Result<Option<Value>>)
      requires Valid()
      ensures !connected ==> r == Err(TypeError)
      ensures connected && TileStore !in disk.stores ==> r == Err(NotFoundError)
      ensures connected && TileStore in disk.stores && !IsValidKey(src) ==> r == Err(DataError)
      ensures connected && TileStore in disk.stores && IsValidKey(src) ==>
        r == Ok(if src in Records(TileStore) then Some(Records(TileStore)[src]) else None)
      ensures r.Ok? && r.value.Some? ==> KeyOf(r.value.value, "src") == Some(src)
    {
      r := Get(TileStore, src);
    }

    /** `getAllEdits(keepMeta)`: the stored envelopes sorted by ascending
        timestamp (`sorted`, a permutation of what `getAll` returned), or,
        unless `keepMeta` is truthy, their payloads in that order. */
    method GetAllEdits(keepMeta: Value) returns (r: Result<seq<Value>>, ghost keys: seq<Value>, ghost sorted: seq<Value>)
      ensures !connected ==> r == Err(TypeError)
      ensures connected && EditStore !in disk.stores ==> r == Err(NotFoundError)
      ensures connected && EditStore in disk.stores ==>
        && IsListing(Records(EditStore), keys)
        && multiset(sorted) == multiset(Lookup(Records(EditStore), keys))
        && SortedByStamp(sorted)
        && r == Ok(if Truthy(keepMeta) then sorted else Payloads(sorted))
    {
      sorted := [];
      var all;
      all, keys := GetAll(EditStore);
      if all.Err? {
        return Err(all.error), keys, sorted;
      }
      var edits := all.value;
      var a := new Value[|edits|](i requires 0 <= i < |edits| => edits[i]);
      assert a[..] == edits;
      SortByTimestamp(a);
      sorted := a[..];
      if !Truthy(keepMeta) {
        return Ok(Payloads(a[..])), keys, sorted;
      }
      return Ok(a[..]), keys, sorted;
    }

    /** `removeEdit`: deletes the envelope under `key` and resolves with `key`. */
    method RemoveEdit(key: Value) returns (r: Result<Value>)
      requires Valid()
      modifies this
      ensures Valid() && connected == old(connected) && disk.version == old(disk.version)
      ensures !connected ==> r == Err(TypeError) && disk == old(disk)
      ensures connected && EditStore !in old(disk.stores) ==> r == Err(NotFoundError) && disk == old(disk)
      ensures connected && EditStore in old(disk.stores) && !IsValidKey(key) ==> r == Err(DataError) && disk == old(disk)
      ensures connected && EditStore in old(disk.stores) && IsValidKey(key) ==>
        && r == Ok(key)
        && disk.stores == old(disk.stores)[EditStore := old(disk.stores[EditStore]).(
             records := old(Records(EditStore)) - {key})]
    {
      r := Remove(EditStore, key);
    }

    /** `removeTile`: deletes the tile under `key` and resolves with `key`. */
    method RemoveTile(key: Value) returns (r: Result<Value>)
      requires Valid()
      modifies this
      ensures Valid() && connected == old(connected) && disk.version == old(disk.version)
      ensures !connected ==> r == Err(TypeError) && disk == old(disk)
      ensures connected && TileStore !in old(disk.stores) ==> r == Err(NotFoundError) && disk == old(disk)
      ensures connected && TileStore in old(disk.stores) && !IsValidKey(key) ==> r == Err(DataError) && disk == old(disk)
      ensures connected && TileStore in old(disk.stores) && IsValidKey(key) ==>
        && r == Ok(key)
        && disk.stores == old(disk.stores)[TileStore := old(disk.stores[TileStore]).(
             records := old(Records(TileStore)) - {key})]
    {
      r := Remove(TileStore, key);
    }

    /** `editCount`. */
    method EditCount() returns (r: Result<nat>)
      ensures !connected ==> r == Err(TypeError)
      ensures connected && EditStore !in disk.stores ==> r == Err(NotFoundError)
      ensures connected && EditStore in disk.stores ==> r == Ok(|Records(EditStore)|)
    {
      r := Count(EditStore);
    }

    /** `tileCount`. */
    method TileCount() returns (r: Result<nat>)
      ensures !connected ==> r == Err(TypeError)
      ensures connected && TileStore !in disk.stores ==> r == Err(NotFoundError)
      ensures connected && TileStore in disk.stores ==> r == Ok(|Records(TileStore)|)
    {
      r := Count(TileStore);
    }
  }
}
