/** The persistent database behind the cache and its schema: the tile store
    keyed by `src` and the edit store keyed by `key`, created on upgrade. */
module Schema {
  import opened JsValues
  import opened ObjectStores

  const TileStore := "tile"
  const EditStore := "edit"

  /** The named database as the engine keeps it between connections: its
      version (0 while it does not exist) and its object stores by name. */
  datatype Database = Database(version: nat, stores: map<string, ObjectStore>)

  /** The stores this cache creates have their key paths, and every record
      sits under the key its own key path yields. */
  ghost predicate WellFormed(stores: map<string, ObjectStore>) {
    && (TileStore in stores ==> stores[TileStore].keyPath == "src")
    && (EditStore in stores ==> stores[EditStore].keyPath == "key")
    && (forall n :: n in stores ==> Keyed(stores[n]))
  }

  /** `createSchema` as written: `createObjectStore` for the tile store, then
      for the edit store; the engine throws ConstraintError for a name that
      already exists, which aborts the whole upgrade. */
  function WithSchemaAsWritten(stores: map<string, ObjectStore>): (r: Result<map<string, ObjectStore>>)
    ensures r.Ok? <==> TileStore !in stores && EditStore !in stores
    ensures r.Err? ==> r.error == ConstraintError
    ensures r.Ok? ==> r.value == WithSchema(stores)
  {
    if TileStore in stores then Err(ConstraintError)
    else
      var withTiles := stores[TileStore := ObjectStore("src", map[])];
      if EditStore in withTiles then Err(ConstraintError)
      else Ok(withTiles[EditStore := ObjectStore("key", map[])])
  }

  /** `createSchema` as intended: each of the two stores is created, empty and
      with its key path, unless it already exists; existing stores are kept. */
  function WithSchema(stores: map<string, ObjectStore>): (r: map<string, ObjectStore>)
    ensures r.Keys == stores.Keys + {TileStore, EditStore}
    ensures forall n :: n in stores ==> r[n] == stores[n]
    ensures TileStore !in stores ==> r[TileStore] == ObjectStore("src", map[])
    ensures EditStore !in stores ==> r[EditStore] == ObjectStore("key", map[])
    ensures WellFormed(stores) ==> WellFormed(r)
  {
    var withTiles := if TileStore in stores then stores
                     else stores[TileStore := ObjectStore("src", map[])];
    if EditStore in withTiles then withTiles
    else withTiles[EditStore := ObjectStore("key", map[])]
  }

  /** On a new database the code as written does what is intended. */
  lemma AsWrittenCreatesFreshSchema()
    ensures WithSchemaAsWritten(map[]) == Ok(WithSchema(map[]))
  {
  }

  /** As written, every upgrade of a database whose schema already exists
      fails: the first store it re-creates is already there. */
  lemma AsWrittenRejectsLaterUpgrades(stores: map<string, ObjectStore>)
    ensures WithSchemaAsWritten(WithSchema(stores)) == Err(ConstraintError)
  {
  }

  /** As intended, a later upgrade changes nothing and keeps every record. */
  lemma WithSchemaIsIdempotent(stores: map<string, ObjectStore>)
    ensures WithSchema(WithSchema(stores)) == WithSchema(stores)
  {
  }
}
