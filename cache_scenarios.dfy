/** The repository's own usage scenarios, driven through `OfflineCache`: each
    method builds a fresh cache over a new database, opens it at version 1,
    drives it as the scenario does, and states what the scenario checks. */
module CacheScenarios {
  import opened JsValues
  import opened ObjectStores
  import opened EditKeys
  import opened EditOrder
  import opened OrderingScenario
  import opened EditDedup
  import opened Schema
  import opened Cache

  /** `new OfflineCache(name, 1)` over a database that does not exist yet,
      then `open()`: the upgrade creates both stores, empty. */
  method OpenFresh() returns (cache: OfflineCache)
    ensures fresh(cache) && cache.Valid() && cache.connected && cache.version == 1
    ensures cache.disk.version == 1
    ensures cache.disk.stores == map[TileStore := ObjectStore("src", map[]), EditStore := ObjectStore("key", map[])]
  {
    cache := new OfflineCache(1, Database(0, map[]));
    var openResult := cache.Open(None);
    assert cache.disk.stores == WithSchema(map[]);
  }

  /** Closing before opening fails; after a fresh open both stores exist;
      the first close succeeds and a second one fails. */
  method Lifecycle() returns (early: Outcome, openResult: Outcome, stores: set<string>, first: Outcome, second: Outcome)
    ensures early == Fail(CloseError)
    ensures openResult == Pass && stores == {TileStore, EditStore}
    ensures first == Pass && second == Fail(CloseError)
  {
    var cache := new OfflineCache(1, Database(0, map[]));
    early := cache.Close();
    openResult := cache.Open(None);
    stores := cache.disk.stores.Keys;
    first := cache.Close();
    second := cache.Close();
  }

  /** Reopening a version-1 database at version 2 keeps every store and
      record (with the schema created only where it is missing). */
  method UpgradeKeepsRecords(existing: map<string, ObjectStore>) returns (openResult: Outcome, stores: map<string, ObjectStore>)
    requires WellFormed(existing) && TileStore in existing && EditStore in existing
    ensures openResult == Pass && stores == existing
  {
    var cache := new OfflineCache(2, Database(1, existing));
    openResult := cache.Open(None);
    stores := cache.disk.stores;
  }

  /** Set and get a tile: the tile comes back under its `src`. */
  method TileRoundTrip(tile: Value) returns (got: Result<Option<Value>>)
    requires KeyOf(tile, "src").Some?
    ensures got == Ok(Some(tile))
  {
    var cache := OpenFresh();
    var added := cache.AddTile(tile);
    got := cache.GetTile(KeyOf(tile, "src").value);
  }

  /** A second tile with the same `src` replaces the first. */
  method TileUpsert(tile1: Value, tile2: Value) returns (got: Result<Option<Value>>, count: Result<nat>)
    requires KeyOf(tile1, "src").Some? && KeyOf(tile2, "src") == KeyOf(tile1, "src")
    ensures got == Ok(Some(tile2)) && count == Ok(1)
  {
    var cache := OpenFresh();
    var added1 := cache.AddTile(tile1);
    var added2 := cache.AddTile(tile2);
    got := cache.GetTile(KeyOf(tile1, "src").value);
    count := cache.TileCount();
  }

  /** The tile `{src: String(i), value: i}` of the tile-count scenario. */
  function NumberedTile(i: nat): (tile: Value)
    ensures KeyOf(tile, "src") == Some(Str(Decimal(i)))
  {
    Obj(map["src" := Str(Decimal(i)), "value" := Num(i as real)])
  }

  /** Adding the tiles numbered 0 .. n-1 leaves n tiles. */
  method NumberedTiles(n: nat) returns (count: Result<nat>)
    ensures count == Ok(n)
  {
    var cache := OpenFresh();
    for i := 0 to n
      invariant cache.Valid() && cache.connected && TileStore in cache.disk.stores
      invariant |cache.Records(TileStore)| == i
      invariant forall k :: k in cache.Records(TileStore) ==>
                  k.Str? && ParseDecimal(k.s).Some? && 0 <= ParseDecimal(k.s).value < i
    {
      DecimalRoundTrip(i);
      var added := cache.AddTile(NumberedTile(i));
    }
    count := cache.TileCount();
  }

  /** Adding a tile and removing it by its `src` leaves no tiles. */
  method RemoveTileScenario() returns (count: Result<nat>)
    ensures count == Ok(0)
  {
    var cache := OpenFresh();
    var added := cache.AddTile(Obj(map["src" := Str("src")]));
    var removed := cache.RemoveTile(Str("src"));
    count := cache.TileCount();
  }

  /** Adding the same edit three times with replacing on stores it once. */
  method RepeatedEditStoredOnce(edit: Value, timestamp: Value, now: int, f1: string, f2: string, f3: string)
    returns (count: Result<nat>)
    ensures count == Ok(1)
  {
    var cache := OpenFresh();
    var r1 := cache.AddEdit(edit, Bool(true), timestamp, now, f1);
    var r2 := cache.AddEdit(edit, Bool(true), timestamp, now, f2);
    var r3 := cache.AddEdit(edit, Bool(true), timestamp, now, f3);
    count := cache.EditCount();
  }

  /** Adding an edit with both flags defaulted, reading its key back from
      `getAllEdits(true)` and removing it leaves no edits. */
  method RemoveEditScenario(now: int, fragment: string) returns (key: Value, count: Result<nat>)
    ensures key == Str(EditKey(now, fragment))
    ensures count == Ok(0)
  {
    var cache := OpenFresh();
    var added := cache.AddEdit(Num(123.0), Undefined, Undefined, now, fragment);
    var all := ReadOnlyEdit(cache, Str(EditKey(now, fragment)), Envelope(now, Num(123.0), EditKey(now, fragment)));
    key := Field(all.value[0], "key");
    var removed := cache.RemoveEdit(key);
    count := cache.EditCount();
  }

  /** `getAllEdits(true)` on a store holding one envelope returns just it. */
  method ReadOnlyEdit(cache: OfflineCache, k: Value, env: Value) returns (r: Result<seq<Value>>)
    requires cache.connected && EditStore in cache.disk.stores
    requires cache.Records(EditStore) == map[k := env]
    ensures r == Ok([env])
  {
    ghost var keys, sorted;
    r, keys, sorted := cache.GetAllEdits(Bool(true));
    ListingLength(map[k := env], keys);
    assert keys == [k];
    assert Lookup(map[k := env], keys) == [env];
    assert sorted[0] in multiset(sorted);
    assert sorted == [env];
  }

  /** The keys of the six edits, from the six random fragments. */
  function OrderingKeys(f: seq<string>): (keys: seq<string>)
    requires |f| == 6
    ensures |keys| == 6
  {
    seq(6, n requires 0 <= n < 6 => EditKey(OrderingStamp(n - 3), f[n]))
  }

  /** The same keys as the edit store holds them. */
  function StoreKeys(keys: seq<string>): (r: seq<Value>)
    ensures |r| == |keys| && forall n :: 0 <= n < |keys| ==> r[n] == Str(keys[n])
  {
    seq(|keys|, n requires 0 <= n < |keys| => Str(keys[n]))
  }

  /** Call `n` of the scenario stores the `n`-th of the six envelopes. */
  lemma OrderingEnvelopes(f: seq<string>)
    requires |f| == 6
    ensures forall n :: 0 <= n < 6 ==>
      OrderingTestEdits(OrderingKeys(f))[n] == EnvelopeFor(Num((n - 3) as real), OrderingStamp(n - 3), f[n])
  {
  }

  /** The six timestamps differ, so the six keys do, whatever the fragments. */
  lemma OrderingKeysDistinct(f: seq<string>)
    requires |f| == 6
    ensures forall i, j :: 0 <= i < j < 6 ==> StoreKeys(OrderingKeys(f))[i] != StoreKeys(OrderingKeys(f))[j]
  {
    var k := OrderingKeys(f);
    forall n | 0 <= n < 6
      ensures ParseEditKey(k[n]) == Some((OrderingStamp(n - 3), f[n]))
    {
      EditKeyRoundTrip(OrderingStamp(n - 3), f[n]);
    }
  }

  /** Whatever order the engine lists the six envelopes in, sorting them
      gives the ones at 78, 89, 97, 98, 99, 100. */
  lemma OrderingStoreSorted(f: seq<string>, keys: seq<Value>, sorted: seq<Value>)
    requires |f| == 6
    requires var k := OrderingKeys(f); IsListing(MapOf(StoreKeys(k), OrderingTestEdits(k)), keys)
    requires var k := OrderingKeys(f); multiset(sorted) == multiset(Lookup(MapOf(StoreKeys(k), OrderingTestEdits(k)), keys))
    requires SortedByStamp(sorted)
    ensures sorted == OrderingTestArranged(OrderingKeys(f))
    ensures Payloads(sorted) == [Num(2.0), Num(1.0), Num(-3.0), Num(-2.0), Num(-1.0), Num(0.0)]
  {
    var k := OrderingKeys(f);
    OrderingKeysDistinct(f);
    MapOfListing(StoreKeys(k), OrderingTestEdits(k));
    ListingsArePermutations(MapOf(StoreKeys(k), OrderingTestEdits(k)), keys, StoreKeys(k));
    OrderingTestSorted(k, sorted);
    OrderingTestPayloads(k);
  }

  /** `addEdit(edit, false, timestamp)` on an open cache with an edit store. */
  method AddWithoutReplacing(cache: OfflineCache, edit: Value, timestamp: int, now: int, fragment: string)
    requires cache.Valid() && cache.connected && EditStore in cache.disk.stores
    modifies cache
    ensures cache.Valid() && cache.connected && EditStore in cache.disk.stores
    ensures cache.Records(EditStore)
            == old(cache.Records(EditStore))[Str(EditKey(timestamp, fragment)) := EnvelopeFor(edit, timestamp, fragment)]
  {
    var added := cache.AddEdit(edit, Bool(false), Num(timestamp as real), now, fragment);
  }

  /** `addEdit(i, false, OrderingStamp(i))` for i from -3 to 2, in order. */
  method AddOrderingEdits(cache: OfflineCache, f: seq<string>, now: int)
    requires |f| == 6
    requires cache.Valid() && cache.connected && EditStore in cache.disk.stores
    requires cache.Records(EditStore) == map[]
    modifies cache
    ensures cache.Valid() && cache.connected && EditStore in cache.disk.stores
    ensures var k := OrderingKeys(f); cache.Records(EditStore) == MapOf(StoreKeys(k), OrderingTestEdits(k))
  {
    ghost var ks := StoreKeys(OrderingKeys(f));
    ghost var es := OrderingTestEdits(OrderingKeys(f));
    OrderingEnvelopes(f);
    for n := 0 to 6
      invariant cache.Valid() && cache.connected && EditStore in cache.disk.stores
      invariant cache.Records(EditStore) == MapOf(ks[..n], es[..n])
    {
      var i := n - 3;
      AddWithoutReplacing(cache, Num(i as real), OrderingStamp(i), now, f[n]);
      MapOfExtend(ks, es, n);
    }
    assert ks[..6] == ks && es[..6] == es;
  }

  /** `getAllEdits(keepMeta)` on the store the six calls leave. */
  method ReadOrderedEdits(cache: OfflineCache, f: seq<string>, keepMeta: Value) returns (r: Result<seq<Value>>)
    requires |f| == 6
    requires cache.connected && EditStore in cache.disk.stores
    requires var k := OrderingKeys(f); cache.Records(EditStore) == MapOf(StoreKeys(k), OrderingTestEdits(k))
    ensures r == Ok(if Truthy(keepMeta) then OrderingTestArranged(OrderingKeys(f))
              else [Num(2.0), Num(1.0), Num(-3.0), Num(-2.0), Num(-1.0), Num(0.0)])
  {
    ghost var keys, sorted;
    r, keys, sorted := cache.GetAllEdits(keepMeta);
    OrderingStoreSorted(f, keys, sorted);
  }

  /** Six edits added without replacing come back ordered by timestamp:
      as payloads 2, 1, -3, -2, -1, 0, or with their metadata at 78, 89, 97,
      98, 99, 100; and there are six of them. */
  method OrderedEdits(f: seq<string>, now: int) returns (payloads: Result<seq<Value>>, withMeta: Result<seq<Value>>, count: Result<nat>)
    requires |f| == 6
    ensures payloads == Ok([Num(2.0), Num(1.0), Num(-3.0), Num(-2.0), Num(-1.0), Num(0.0)])
    ensures withMeta.Ok? && |withMeta.value| == 6
    ensures forall n :: 0 <= n < 6 ==>
              && Field(withMeta.value[n], "timestamp") == Num([78.0, 89.0, 97.0, 98.0, 99.0, 100.0][n])
              && Field(withMeta.value[n], "edit") == payloads.value[n]
    ensures count == Ok(6)
  {
    var cache := OpenFresh();
    AddOrderingEdits(cache, f, now);
    payloads := ReadOrderedEdits(cache, f, Bool(false));
    withMeta := ReadOrderedEdits(cache, f, Bool(true));
    OrderingTestStamps(OrderingKeys(f));
    OrderingTestPayloads(OrderingKeys(f));
    count := cache.EditCount();
    ghost var ks := StoreKeys(OrderingKeys(f));
    ghost var es := OrderingTestEdits(OrderingKeys(f));
    OrderingKeysDistinct(f);
    MapOfListing(ks, es);
    ListingLength(MapOf(ks, es), ks);
  }

  /** Three `addEdit(edit, true, timestamp)` calls on a store without that
      payload: the first stores it, the other two find it and store nothing. */
  method AddThriceReplacing(cache: OfflineCache, edit: Value, timestamp: int, now: int, f1: string, f2: string, f3: string)
    requires cache.Valid() && cache.connected && EditStore in cache.disk.stores
    requires !HasPayload(cache.Records(EditStore), edit)
    modifies cache
    ensures cache.Valid() && cache.connected && EditStore in cache.disk.stores
    ensures cache.Records(EditStore)
            == old(cache.Records(EditStore))[Str(EditKey(timestamp, f1)) := EnvelopeFor(edit, timestamp, f1)]
  {
    var added1 := cache.AddEdit(edit, Bool(true), Num(timestamp as real), now, f1);
    assert HasPayload(cache.Records(EditStore), edit) by {
      assert Field(cache.Records(EditStore)[Str(EditKey(timestamp, f1))], "edit") == edit;
    }
    var added2 := cache.AddEdit(edit, Bool(true), Num(timestamp as real), now, f2);
    var added3 := cache.AddEdit(edit, Bool(true), Num(timestamp as real), now, f3);
  }

  /** The fragments of the calls that store something: the first of each three. */
  function FirstOfThree(f: seq<string>): (g: seq<string>)
    requires |f| == 18
    ensures |g| == 6 && forall n :: 0 <= n < 6 ==> g[n] == f[3 * n]
  {
    seq(6, n requires 0 <= n < 6 => f[3 * n])
  }

  /** Before the calls for edit `n - 3`, no stored envelope carries it. */
  lemma NoPayloadYet(f: seq<string>, n: nat)
    requires |f| == 6 && n < 6
    ensures var k := OrderingKeys(f);
      !HasPayload(MapOf(StoreKeys(k)[..n], OrderingTestEdits(k)[..n]), Num((n - 3) as real))
  {
    var k := OrderingKeys(f);
    var ks, es := StoreKeys(k)[..n], OrderingTestEdits(k)[..n];
    OrderingKeysDistinct(f);
    OrderingEnvelopes(f);
    MapOfListing(ks, es);
    var m := MapOf(ks, es);
    forall key | key in m ensures Field(m[key], "edit") != Num((n - 3) as real) {
      var j :| 0 <= j < n && ks[j] == key;
      assert m[key] == Lookup(m, ks)[j] == es[j];
    }
  }

  /** The sequence of the duplicate-skipping scenario: each of the six edits
      added three times in a row with replacing on. */
  method AddDedupOrderingEdits(cache: OfflineCache, f: seq<string>, now: int)
    requires |f| == 18
    requires cache.Valid() && cache.connected && EditStore in cache.disk.stores
    requires cache.Records(EditStore) == map[]
    modifies cache
    ensures cache.Valid() && cache.connected && EditStore in cache.disk.stores
    ensures var k := OrderingKeys(FirstOfThree(f)); cache.Records(EditStore) == MapOf(StoreKeys(k), OrderingTestEdits(k))
  {
    ghost var g := FirstOfThree(f);
    ghost var ks := StoreKeys(OrderingKeys(g));
    ghost var es := OrderingTestEdits(OrderingKeys(g));
    OrderingEnvelopes(g);
    for n := 0 to 6
      invariant cache.Valid() && cache.connected && EditStore in cache.disk.stores
      invariant cache.Records(EditStore) == MapOf(ks[..n], es[..n])
    {
      var i := n - 3;
      NoPayloadYet(g, n);
      AddThriceReplacing(cache, Num(i as real), OrderingStamp(i), now, f[3 * n], f[3 * n + 1], f[3 * n + 2]);
      MapOfExtend(ks, es, n);
    }
    assert ks[..6] == ks && es[..6] == es;
  }

  /** Adding each of the six edits three times with replacing on stores six
      envelopes, which come back as the payloads 2, 1, -3, -2, -1, 0. */
  method DedupOrderedEdits(f: seq<string>, now: int) returns (payloads: Result<seq<Value>>, count: Result<nat>)
    requires |f| == 18
    ensures payloads == Ok([Num(2.0), Num(1.0), Num(-3.0), Num(-2.0), Num(-1.0), Num(0.0)])
    ensures count == Ok(6)
  {
    var cache := OpenFresh();
    AddDedupOrderingEdits(cache, f, now);
    payloads := ReadOrderedEdits(cache, FirstOfThree(f), Bool(false));
    count := cache.EditCount();
    ghost var ks := StoreKeys(OrderingKeys(FirstOfThree(f)));
    ghost var es := OrderingTestEdits(OrderingKeys(FirstOfThree(f)));
    OrderingKeysDistinct(FirstOfThree(f));
    MapOfListing(ks, es);
    ListingLength(MapOf(ks, es), ks);
  }
}
