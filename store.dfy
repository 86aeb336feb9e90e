/**
 * The type-keyed singleton store of src/node/mod.rs (`Store` together with
 * `AppContextGenHandler::push_boxed`, which is its only way to gain entries).
 *
 * A key stands for a Rust `TypeId`: the store holds at most one value per
 * type.  Registering a type twice and reading a type never registered both
 * panic in the source; here they are preconditions.
 */
module TypeStore {
  class Store<K(==), V> {
    /** The map from type to its single boxed value. */
    var entries: map<K, V>

    /** `Store::new`: nothing is registered. */
    constructor ()
      ensures entries == map[]
    {
      entries := map[];
    }

    /** Is a value of type `k` registered? */
    predicate Has(k: K)
      reads this
    {
      k in entries
    }

    /**
     * `AppContextGenHandler::push_boxed` (and `push`): registering a type
     * that is already present is fatal, otherwise exactly one entry is added.
     */
    method Push(k: K, v: V)
      requires !Has(k)
      modifies this
      ensures entries == old(entries)[k := v]
      ensures entries.Keys == old(entries).Keys + {k}
      ensures |entries| == |old(entries)| + 1
    {
      entries := entries[k := v];
    }

    /**
     * `Store::get` and `get_mut`: the value registered for `k`; reading a
     * type never registered is fatal.
     */
    function Get(k: K): (v: V)
      reads this
      requires Has(k)
    {
      entries[k]
    }

    /** `Store::overwrite` (and `set`, which writes through a wrapper type): replaces the value of a registered type. */
    method Overwrite(k: K, v: V)
      requires Has(k)
      modifies this
      ensures entries.Keys == old(entries).Keys
      ensures Get(k) == v
      ensures forall j | j in entries && j != k :: entries[j] == old(entries)[j]
    {
      entries := entries[k := v];
    }
  }
}
