/**
 * The persistent key-value store behind a preference set (Android's SharedPreferences and its
 * Editor), seen as a map from key to value. Its disk I/O is not modelled: whether a commit is
 * durable is a boolean the caller supplies, and a commit that is not durable changes nothing.
 */
module PrefStore {
  import opened PrefValues

  type Entries = map<string, Value>

  /**
   * The store's typed read (`getBoolean`, `getInt`, ... with a default): the stored value cast
   * to the kind of `def`, or `def` itself when the key is absent.
   */
  function Lookup(store: Entries, key: string, def: Value): (r: Result<Value>)
    ensures key !in store ==> r == Ok(def)
    ensures key in store && KindOf(store[key]) == KindOf(def) ==> r == Ok(store[key])
    ensures r.Ok? ==> KindOf(r.value) == KindOf(def)
    ensures r.Failure? ==> key in store && KindOf(store[key]) != KindOf(def)
    ensures key in store && KindOf(store[key]) != KindOf(def) ==>
      r == Failure(ClassCastException(key, KindOf(def), KindOf(store[key])))
  {
    if key in store then Cast(key, store[key], KindOf(def)) else Ok(def)
  }

  /** The single change an editor carries before its commit. */
  datatype Edit = PutEntry(key: string, value: Value) | RemoveEntry(key: string) | ClearEntries

  function Apply(store: Entries, edit: Edit): Entries {
    match edit
    case PutEntry(k, v) => store[k := v]
    case RemoveEntry(k) => store - {k}
    case ClearEntries => map[]
  }

  /** `edit()....commit()`: the edit takes effect exactly when the commit reports success. */
  function Commit(store: Entries, edit: Edit, durable: bool): Entries {
    if durable then Apply(store, edit) else store
  }
}
