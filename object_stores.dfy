/** The generic record store: one IndexedDB object store with an in-line key
    path, and the put / get / delete / count primitives the cache wraps, each
    as a function from the store before to the result (and store) after. */
module ObjectStores {
  import opened JsValues

  /** The errors the cache's operations reject with. */
  datatype Error =
    | TypeError          // no open handle (`db` is undefined), or an invalid version
    | NotFoundError      // the named object store does not exist
    | DataError          // the key, or the item's key path, is not a valid key
    | ConstraintError    // an object store of that name already exists
    | VersionError       // the database exists at a higher version
    | CloseError         // `close` without an open handle
    | EngineError(message: string)  // any other failure the engine reports on open

  datatype Result<+T> = Ok(value: T) | Err(error: Error)

  datatype Outcome = Pass | Fail(error: Error)

  /** An object store: the key path named at creation, and its records by key. */
  datatype ObjectStore = ObjectStore(keyPath: string, records: map<Value, Value>)

  /** The key that evaluating `keyPath` on `item` yields, when that is a valid key. */
  function KeyOf(item: Value, keyPath: string): (k: Option<Value>)
    ensures k.Some? <==> IsValidKey(Field(item, keyPath))
    ensures k.Some? ==> k.value == Field(item, keyPath) && k.value != Undefined
  {
    var f := Field(item, keyPath);
    if IsValidKey(f) then Some(f) else None
  }

  /** Every record is stored under the key its own key path yields. */
  ghost predicate Keyed(os: ObjectStore) {
    forall k :: k in os.records ==> KeyOf(os.records[k], os.keyPath) == Some(k)
  }

  /** `store.put(item)`: an upsert by the item's own key. */
  function Put(os: ObjectStore, item: Value): (r: Result<ObjectStore>)
    ensures r.Ok? <==> KeyOf(item, os.keyPath).Some?
    ensures r.Err? ==> r.error == DataError
    ensures r.Ok? ==>
      var k := KeyOf(item, os.keyPath).value;
      && r.value.keyPath == os.keyPath
      && r.value.records.Keys == os.records.Keys + {k}
      && r.value.records[k] == item
      && (forall k' :: k' in os.records && k' != k ==> r.value.records[k'] == os.records[k'])
    ensures r.Ok? && Keyed(os) ==> Keyed(r.value)
  {
    match KeyOf(item, os.keyPath)
    case None => Err(DataError)
    case Some(k) => Ok(os.(records := os.records[k := item]))
  }

  /** `store.get(key)`: the record under `key`, or None when there is none. */
  function Get(os: ObjectStore, key: Value): (r: Result<Option<Value>>)
    ensures r.Err? <==> !IsValidKey(key)
    ensures r.Err? ==> r.error == DataError
    ensures r.Ok? ==> (r.value.Some? <==> key in os.records)
    ensures r.Ok? && r.value.Some? ==> r.value.value == os.records[key]
  {
    if !IsValidKey(key) then Err(DataError)
    else if key in os.records then Ok(Some(os.records[key]))
    else Ok(None)
  }

  /** `store.delete(key)`: drops the record under `key`; absent keys are fine. */
  function Delete(os: ObjectStore, key: Value): (r: Result<ObjectStore>)
    ensures r.Err? <==> !IsValidKey(key)
    ensures r.Err? ==> r.error == DataError
    ensures r.Ok? ==>
      && r.value.keyPath == os.keyPath
      && r.value.records.Keys == os.records.Keys - {key}
      && (forall k :: k in r.value.records ==> r.value.records[k] == os.records[k])
    ensures r.Ok? && Keyed(os) ==> Keyed(r.value)
  {
    if !IsValidKey(key) then Err(DataError)
    else Ok(os.(records := os.records - {key}))
  }

  /** `store.count()`. */
  function Count(os: ObjectStore): (n: nat) {
    |os.records|
  }

  /** Puts the items one after another, stopping at the first failure. */
  function PutAll(os: ObjectStore, items: seq<Value>): (r: Result<ObjectStore>)
    decreases |items|
  {
    if items == [] then Ok(os)
    else match Put(os, items[0])
      case Err(e) => Err(e)
      case Ok(os') => PutAll(os', items[1..])
  }

  /** The items all carry valid keys under `keyPath`, no two the same. */
  ghost predicate DistinctKeys(items: seq<Value>, keyPath: string) {
    && (forall i :: 0 <= i < |items| ==> KeyOf(items[i], keyPath).Some?)
    && (forall i, j :: 0 <= i < j < |items| ==> KeyOf(items[i], keyPath) != KeyOf(items[j], keyPath))
  }

  /** `ks` lists every key of `m`, each exactly once (in no particular order). */
  ghost predicate IsListing(m: map<Value, Value>, ks: seq<Value>) {
    && (forall i :: 0 <= i < |ks| ==> ks[i] in m)
    && (forall k :: k in m ==> k in ks)
    && (forall i, j :: 0 <= i < j < |ks| ==> ks[i] != ks[j])
  }

  /** The records of `m` in the order the keys `ks` give. */
  function Lookup(m: map<Value, Value>, ks: seq<Value>): (vs: seq<Value>)
    requires forall i :: 0 <= i < |ks| ==> ks[i] in m
    ensures |vs| == |ks|
    ensures forall i :: 0 <= i < |ks| ==> vs[i] == m[ks[i]]
  {
    seq(|ks|, i requires 0 <= i < |ks| => m[ks[i]])
  }

  /** Put followed by get of the item's key gives back the item. */
  lemma PutThenGet(os: ObjectStore, item: Value)
    requires KeyOf(item, os.keyPath).Some?
    ensures Put(os, item).Ok?
    ensures Get(Put(os, item).value, KeyOf(item, os.keyPath).value) == Ok(Some(item))
  {
  }

  /** Put grows the count by one for a new key and keeps it for an existing one. */
  lemma PutCount(os: ObjectStore, item: Value)
    requires KeyOf(item, os.keyPath).Some?
    ensures Count(Put(os, item).value)
            == Count(os) + (if KeyOf(item, os.keyPath).value in os.records then 0 else 1)
  {
  }

  /** Delete of a key put into a store that lacked it restores the store. */
  lemma DeleteUndoesPut(os: ObjectStore, item: Value)
    requires KeyOf(item, os.keyPath).Some?
    requires KeyOf(item, os.keyPath).value !in os.records
    ensures Delete(Put(os, item).value, KeyOf(item, os.keyPath).value) == Ok(os)
  {
    var k := KeyOf(item, os.keyPath).value;
    assert os.records[k := item] - {k} == os.records;
  }

  /** After delete the key is gone; the count drops by one exactly when it was present. */
  lemma DeleteCount(os: ObjectStore, key: Value)
    requires IsValidKey(key)
    ensures Get(Delete(os, key).value, key) == Ok(None)
    ensures Count(Delete(os, key).value) == Count(os) - (if key in os.records then 1 else 0)
  {
  }

  /** Putting items with distinct fresh keys adds exactly one record per item. */
  lemma {:induction false} PutAllCount(os: ObjectStore, items: seq<Value>)
    requires DistinctKeys(items, os.keyPath)
    requires forall i :: 0 <= i < |items| ==> KeyOf(items[i], os.keyPath).value !in os.records
    ensures PutAll(os, items).Ok?
    ensures PutAll(os, items).value.keyPath == os.keyPath
    ensures Count(PutAll(os, items).value) == Count(os) + |items|
    ensures forall i :: 0 <= i < |items| ==>
              && KeyOf(items[i], os.keyPath).value in PutAll(os, items).value.records
              && PutAll(os, items).value.records[KeyOf(items[i], os.keyPath).value] == items[i]
    decreases |items|
  {
    if items != [] {
      var k0 := KeyOf(items[0], os.keyPath).value;
      var os' := Put(os, items[0]).value;
      var rest := items[1..];
      assert DistinctKeys(rest, os.keyPath) by {
        forall i, j | 0 <= i < j < |rest|
          ensures KeyOf(rest[i], os.keyPath) != KeyOf(rest[j], os.keyPath)
        {
          assert rest[i] == items[i + 1] && rest[j] == items[j + 1];
        }
      }
      forall i | 0 <= i < |rest|
        ensures KeyOf(rest[i], os'.keyPath).value !in os'.records
      {
        assert rest[i] == items[i + 1];
        assert KeyOf(items[0], os.keyPath) != KeyOf(items[i + 1], os.keyPath);
      }
      PutAllCount(os', rest);
      PutCount(os, items[0]);
      forall i | 0 <= i < |items|
        ensures KeyOf(items[i], os.keyPath).value in PutAll(os, items).value.records
        ensures PutAll(os, items).value.records[KeyOf(items[i], os.keyPath).value] == items[i]
      {
        if i == 0 {
          forall j | 0 <= j < |rest| ensures KeyOf(rest[j], os'.keyPath) != Some(k0) {
            assert rest[j] == items[j + 1];
          }
          PutAllKeepsOthers(os', rest, k0);
        } else {
          assert items[i] == rest[i - 1];
        }
      }
    }
  }

  /** Putting items never disturbs a key none of them carries. */
  lemma {:induction false} PutAllKeepsOthers(os: ObjectStore, items: seq<Value>, k: Value)
    requires PutAll(os, items).Ok?
    requires forall i :: 0 <= i < |items| ==> KeyOf(items[i], os.keyPath) != Some(k)
    ensures PutAll(os, items).value.keyPath == os.keyPath
    ensures k in os.records ==> k in PutAll(os, items).value.records
    ensures k in os.records ==> PutAll(os, items).value.records[k] == os.records[k]
    decreases |items|
  {
    if items != [] {
      var os' := Put(os, items[0]).value;
      forall i | 0 <= i < |items[1..]|
        ensures KeyOf(items[1..][i], os'.keyPath) != Some(k)
      {
        assert items[1..][i] == items[i + 1];
      }
      PutAllKeepsOthers(os', items[1..], k);
    }
  }

  /** A listing of a map's keys has exactly as many entries as the map. */
  lemma {:induction false} ListingLength(m: map<Value, Value>, ks: seq<Value>)
    requires IsListing(m, ks)
    ensures |ks| == |m|
    decreases |ks|
  {
    if ks == [] {
      assert forall k :: k !in m;
      assert m == map[];
    } else {
      var m' := m - {ks[0]};
      assert IsListing(m', ks[1..]) by {
        forall i | 0 <= i < |ks[1..]| ensures ks[1..][i] in m' {
          assert ks[1..][i] == ks[i + 1];
          assert ks[0] != ks[i + 1];
        }
        forall k | k in m' ensures k in ks[1..] {
          assert k in ks;
          var i :| 0 <= i < |ks| && ks[i] == k;
          assert i != 0;
          assert ks[1..][i - 1] == k;
        }
      }
      ListingLength(m', ks[1..]);
      assert m'.Keys == m.Keys - {ks[0]};
    }
  }

  /** A sequence without repeats holds each of its elements exactly once. */
  lemma {:induction false} DistinctOnce(ks: seq<Value>)
    requires forall i, j :: 0 <= i < j < |ks| ==> ks[i] != ks[j]
    ensures forall x :: multiset(ks)[x] == if x in ks then 1 else 0
    decreases |ks|
  {
    if ks != [] {
      var rest := ks[1..];
      forall i, j | 0 <= i < j < |rest| ensures rest[i] != rest[j] {
        assert rest[i] == ks[i + 1] && rest[j] == ks[j + 1];
      }
      DistinctOnce(rest);
      assert ks == [ks[0]] + rest;
      assert ks[0] !in rest;
      forall x ensures x in ks <==> x == ks[0] || x in rest {
      }
    }
  }

  /** Two listings of the same map are permutations of each other. */
  lemma ListingsHaveSameKeys(m: map<Value, Value>, ks1: seq<Value>, ks2: seq<Value>)
    requires IsListing(m, ks1) && IsListing(m, ks2)
    ensures multiset(ks1) == multiset(ks2)
  {
    DistinctOnce(ks1);
    DistinctOnce(ks2);
    assert forall x :: x in ks1 <==> x in ks2;
  }

  /** Looking up a permutation of the keys fetches a permutation of the records. */
  lemma {:induction false} LookupPermuted(m: map<Value, Value>, ks1: seq<Value>, ks2: seq<Value>)
    requires forall i :: 0 <= i < |ks1| ==> ks1[i] in m
    requires multiset(ks1) == multiset(ks2)
    ensures forall i :: 0 <= i < |ks2| ==> ks2[i] in m
    ensures multiset(Lookup(m, ks1)) == multiset(Lookup(m, ks2))
    decreases |ks1|
  {
    forall i | 0 <= i < |ks2| ensures ks2[i] in m {
      assert ks2[i] in multiset(ks1);
    }
    if ks1 == [] {
      assert |ks2| == |multiset(ks2)| == 0;
    } else {
      var k := ks1[0];
      assert k in multiset(ks2);
      var j :| 0 <= j < |ks2| && ks2[j] == k;
      var r1, a, b := ks1[1..], ks2[..j], ks2[j + 1..];
      assert ks1 == [k] + r1;
      assert ks2 == a + ([k] + b);
      RemoveOne(k, r1, a, b);
      LookupPermuted(m, r1, a + b);
      LookupAroundOne(m, k, r1, a, b);
    }
  }

  /** Putting one key in front of one listing and anywhere into another keeps
      the two lookups permutations of each other. */
  lemma LookupAroundOne(m: map<Value, Value>, k: Value, r1: seq<Value>, a: seq<Value>, b: seq<Value>)
    requires k in m
    requires forall i :: 0 <= i < |r1| ==> r1[i] in m
    requires forall i :: 0 <= i < |a + b| ==> (a + b)[i] in m
    requires multiset(Lookup(m, r1)) == multiset(Lookup(m, a + b))
    ensures forall i :: 0 <= i < |[k] + r1| ==> ([k] + r1)[i] in m
    ensures forall i :: 0 <= i < |a + ([k] + b)| ==> (a + ([k] + b))[i] in m
    ensures multiset(Lookup(m, [k] + r1)) == multiset(Lookup(m, a + ([k] + b)))
  {
    LookupConcat(m, a, b);
    assert forall i :: 0 <= i < |[k] + r1| ==> ([k] + r1)[i] == if i == 0 then k else r1[i - 1];
    LookupConcat(m, [k], r1);
    assert forall i :: 0 <= i < |[k] + b| ==> ([k] + b)[i] == if i == 0 then k else b[i - 1];
    LookupConcat(m, [k], b);
    assert forall i :: 0 <= i < |a + ([k] + b)| ==> (a + ([k] + b))[i] == if i < |a| then a[i] else ([k] + b)[i - |a|];
    LookupConcat(m, a, [k] + b);
    InsertAnywhere(m[k], Lookup(m, r1), Lookup(m, a), Lookup(m, b));
  }

  lemma LookupConcat(m: map<Value, Value>, a: seq<Value>, b: seq<Value>)
    requires forall i :: 0 <= i < |a + b| ==> (a + b)[i] in m
    ensures forall i :: 0 <= i < |a| ==> a[i] in m
    ensures forall i :: 0 <= i < |b| ==> b[i] in m
    ensures Lookup(m, a + b) == Lookup(m, a) + Lookup(m, b)
  {
    assert forall i :: 0 <= i < |a + b| ==> (a + b)[i] == if i < |a| then a[i] else b[i - |a|];
    assert forall i :: 0 <= i < |b| ==> b[i] == (a + b)[i + |a|];
  }

  lemma RemoveOne(x: Value, s: seq<Value>, p: seq<Value>, q: seq<Value>)
    requires multiset([x] + s) == multiset(p + ([x] + q))
    ensures multiset(s) == multiset(p + q)
  {
    assert multiset([x] + s) == multiset{x} + multiset(s);
    assert multiset(p + ([x] + q)) == multiset{x} + multiset(p + q);
    assert multiset(s) == (multiset{x} + multiset(s)) - multiset{x};
    assert multiset(p + q) == (multiset{x} + multiset(p + q)) - multiset{x};
  }

  lemma InsertAnywhere(x: Value, s: seq<Value>, p: seq<Value>, q: seq<Value>)
    requires multiset(s) == multiset(p + q)
    ensures multiset([x] + s) == multiset(p + ([x] + q))
  {
  }

  /** Whatever order the engine enumerates the keys in, the records fetched
      are the same multiset. */
  lemma ListingsArePermutations(m: map<Value, Value>, ks1: seq<Value>, ks2: seq<Value>)
    requires IsListing(m, ks1) && IsListing(m, ks2)
    ensures multiset(Lookup(m, ks1)) == multiset(Lookup(m, ks2))
  {
    ListingsHaveSameKeys(m, ks1, ks2);
    LookupPermuted(m, ks1, ks2);
  }

  /** The map that puts `vs[i]` under `ks[i]`, one after another. */
  ghost function MapOf(ks: seq<Value>, vs: seq<Value>): (m: map<Value, Value>)
    requires |ks| == |vs|
    decreases |ks|
  {
    if ks == [] then map[]
    else MapOf(ks[..|ks| - 1], vs[..|vs| - 1])[ks[|ks| - 1] := vs[|vs| - 1]]
  }

  /** Building one entry further puts one more value under its key. */
  lemma MapOfExtend(ks: seq<Value>, vs: seq<Value>, n: nat)
    requires |ks| == |vs| && n < |ks|
    ensures MapOf(ks[..n + 1], vs[..n + 1]) == MapOf(ks[..n], vs[..n])[ks[n] := vs[n]]
  {
    assert ks[..n + 1][..n] == ks[..n] && vs[..n + 1][..n] == vs[..n];
  }

  /** Distinct keys list the map they build, and fetch back the values. */
  lemma {:induction false} MapOfListing(ks: seq<Value>, vs: seq<Value>)
    requires |ks| == |vs|
    requires forall i, j :: 0 <= i < j < |ks| ==> ks[i] != ks[j]
    ensures IsListing(MapOf(ks, vs), ks)
    ensures Lookup(MapOf(ks, vs), ks) == vs
    decreases |ks|
  {
    if ks != [] {
      var n := |ks| - 1;
      var a, b := ks[..n], vs[..n];
      assert forall i, j :: 0 <= i < j < |a| ==> a[i] != a[j];
      MapOfListing(a, b);
      assert MapOf(ks, vs) == MapOf(a, b)[ks[n] := vs[n]];
      ListingOneMore(MapOf(a, b), ks, vs);
    }
  }

  /** A listing of `m` by all but the last key, extended by the last key and
      value, lists the extended map and fetches back every value. */
  lemma ListingOneMore(m: map<Value, Value>, ks: seq<Value>, vs: seq<Value>)
    requires |ks| == |vs| > 0
    requires forall i, j :: 0 <= i < j < |ks| ==> ks[i] != ks[j]
    requires IsListing(m, ks[..|ks| - 1])
    requires Lookup(m, ks[..|ks| - 1]) == vs[..|vs| - 1]
    ensures IsListing(m[ks[|ks| - 1] := vs[|vs| - 1]], ks)
    ensures Lookup(m[ks[|ks| - 1] := vs[|vs| - 1]], ks) == vs
  {
    var n := |ks| - 1;
    var a, b := ks[..n], vs[..n];
    var full := m[ks[n] := vs[n]];
    forall i | 0 <= i < |ks| ensures ks[i] in full && full[ks[i]] == vs[i] {
      if i < n {
        assert a[i] == ks[i] && b[i] == vs[i];
        assert Lookup(m, a)[i] == m[a[i]];
      }
    }
    forall k | k in full ensures k in ks {
      if k != ks[n] {
        assert k in a;
      }
    }
  }
}
