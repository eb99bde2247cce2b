/**
 * A functional model of SharedPref: each operation maps the pair (cache, store) to its result
 * and the new pair. The class in module SharedPrefs is proved to do exactly this, and module
 * SharedPrefProperties proves what these functions promise across several calls.
 *
 * The reader-writer lock is not modelled: the operations run one at a time.
 */
module SharedPrefSpec {
  import opened PrefValues
  import opened PrefStore

  /** The reserved key under which the store keeps the version last written for it. */
  const VersionKey: string := "file_version"

  /** The version a store without a version entry is taken to be at. */
  const DefaultVersion: Int32 := 1

  /** The in-memory cache in front of the persistent store. */
  datatype Prefs = Prefs(cache: Entries, store: Entries)

  /** What an operation returns, with the state it leaves behind. */
  datatype Reply<T> = Reply(result: T, after: Prefs)

  /** The coherence invariant: every key in the store is in the cache, with the same value. */
  predicate Coherent(p: Prefs) {
    forall k :: k in p.store ==> k in p.cache && p.cache[k] == p.store[k]
  }

  // ---------------------------------------------------------------------------------------
  // Reads

  /**
   * A typed getter (`getBoolean`, `getInt`, `getLong`, `getFloat`, `getString`,
   * `getStringSet`), the kind asked for being the kind of `def`. A cached value is returned
   * as it is; on a miss the store is read with `def` as its fallback and the result is
   * seeded into the cache. A value of another kind raises the cast failure before anything
   * is seeded.
   */
  function Get(p: Prefs, key: string, def: Value): (r: Reply<Result<Value>>)
    ensures r.after.store == p.store
    ensures r.result.Ok? ==> KindOf(r.result.value) == KindOf(def)
    ensures r.result.Ok? ==> key in r.after.cache && r.after.cache[key] == r.result.value
    ensures r.result.Failure? ==> r.after == p
    ensures key in p.cache && KindOf(p.cache[key]) != KindOf(def) ==>
      r.result == Failure(ClassCastException(key, KindOf(def), KindOf(p.cache[key])))
    ensures key !in p.cache && key in p.store && KindOf(p.store[key]) != KindOf(def) ==>
      r.result == Failure(ClassCastException(key, KindOf(def), KindOf(p.store[key])))
    ensures r.after.cache - {key} == p.cache - {key}
    ensures key in p.cache ==> r.after == p
    ensures Coherent(p) ==> Coherent(r.after)
  {
    if key in p.cache then
      Reply(Cast(key, p.cache[key], KindOf(def)), p)
    else
      var read := Lookup(p.store, key, def);
      Reply(read, if read.Ok? then p.(cache := p.cache[key := read.value]) else p)
  }

  /** `containsKey`: the key is in the cache or in the store. */
  function ContainsKey(p: Prefs, key: string): bool {
    key in p.cache || key in p.store
  }

  // ---------------------------------------------------------------------------------------
  // Writes: each commits one edit to the store and mirrors it into the cache only when the
  // commit reports success.

  /** A typed putter (`putBoolean`, ..., `putStringSet`). */
  function Put(p: Prefs, key: string, value: Value, durable: bool): (r: Reply<bool>)
    ensures r.result == durable
    ensures durable ==> key in r.after.store && r.after.store[key] == value
    ensures durable ==> key in r.after.cache && r.after.cache[key] == value
    ensures !durable ==> r.after == p
    ensures r.after.store - {key} == p.store - {key}
    ensures r.after.cache - {key} == p.cache - {key}
    ensures Coherent(p) ==> Coherent(r.after)
  {
    var store := Commit(p.store, PutEntry(key, value), durable);
    Reply(durable, if durable then Prefs(p.cache[key := value], store) else p)
  }

  /** `deleteKey`. */
  function Delete(p: Prefs, key: string, durable: bool): (r: Reply<bool>)
    ensures r.result == durable
    ensures durable ==> key !in r.after.store && key !in r.after.cache
    ensures !durable ==> r.after == p
    ensures r.after.store - {key} == p.store - {key}
    ensures r.after.cache - {key} == p.cache - {key}
    ensures Coherent(p) ==> Coherent(r.after)
  {
    var store := Commit(p.store, RemoveEntry(key), durable);
    Reply(durable, if durable then Prefs(p.cache - {key}, store) else p)
  }

  /** `clearAll`: empties the store, the version entry included, and then the cache. */
  function ClearAll(p: Prefs, durable: bool): (r: Reply<bool>)
    ensures r.result == durable
    ensures durable ==> forall k :: k !in r.after.store && k !in r.after.cache
    ensures !durable ==> r.after == p
    ensures Coherent(p) ==> Coherent(r.after)
  {
    var store := Commit(p.store, ClearEntries, durable);
    Reply(durable, if durable then Prefs(map[], store) else p)
  }

  /** `cacheAll`: the cache is replaced by a snapshot of the whole store. */
  function CacheAll(p: Prefs): (r: Prefs)
    ensures r.store == p.store
    ensures forall k :: (k in r.cache <==> k in p.store)
    ensures Coherent(r)
  {
    Prefs(p.store, p.store)
  }

  // ---------------------------------------------------------------------------------------
  // The version gate run by the constructor

  /** The consumer's `migrate(oldVersion, newVersion)`, as its effect on the store. */
  type Migrator = (Int32, Int32, Entries) -> Entries

  /** One invocation of `migrate`. */
  datatype Migration = Migration(oldVersion: Int32, newVersion: Int32)

  /** The version entry, when present, holds an `int`; otherwise reading it fails the cast. */
  predicate VersionReadable(store: Entries) {
    VersionKey in store ==> store[VersionKey].IntValue?
  }

  /** `getInt("file_version", 1)` on the store: its version entry, or 1 when it has none. */
  function SavedVersion(store: Entries): (v: Int32)
    requires VersionReadable(store)
    ensures VersionKey !in store ==> v == DefaultVersion
    ensures VersionKey in store ==> store[VersionKey] == IntValue(v)
  {
    Lookup(store, VersionKey, IntValue(DefaultVersion)).value.i
  }

  /** The calls to `migrate` the constructor makes, in order. */
  function Migrations(store: Entries, declared: Int32): seq<Migration>
    requires VersionReadable(store)
  {
    var saved := SavedVersion(store);
    if saved != declared then [Migration(saved, declared)] else []
  }

  /** The store after the migration step, whether or not `migrate` was called. */
  function Migrated(store: Entries, declared: Int32, migrate: Migrator): Entries
    requires VersionReadable(store)
  {
    var saved := SavedVersion(store);
    if saved != declared then migrate(saved, declared, store) else store
  }

  /**
   * The constructor: the migration step, the write of the declared version (whose commit
   * result is ignored), then `cacheAll` over an empty cache.
   */
  function Construct(store: Entries, declared: Int32, migrate: Migrator, tagDurable: bool): (r: Prefs)
    requires VersionReadable(store)
    ensures Coherent(r) && r.cache == r.store
    ensures tagDurable ==> VersionKey in r.store && r.store[VersionKey] == IntValue(declared)
    ensures tagDurable ==> r.store - {VersionKey} == Migrated(store, declared, migrate) - {VersionKey}
    ensures !tagDurable ==> r.store == Migrated(store, declared, migrate)
  {
    var tagged := Commit(Migrated(store, declared, migrate), PutEntry(VersionKey, IntValue(declared)), tagDurable);
    CacheAll(Prefs(map[], tagged))
  }

  // ---------------------------------------------------------------------------------------
  // A consumer's calls after construction

  /** One call a consumer makes on a constructed preference set. */
  datatype Op =
    | GetOp(key: string, def: Value)
    | ContainsOp(key: string)
    | PutOp(key: string, value: Value, durable: bool)
    | DeleteOp(key: string, durable: bool)
    | ClearOp(durable: bool)
    | ReloadOp

  function Step(p: Prefs, op: Op): Prefs {
    match op
    case GetOp(key, def) => Get(p, key, def).after
    case ContainsOp(_) => p
    case PutOp(key, value, durable) => Put(p, key, value, durable).after
    case DeleteOp(key, durable) => Delete(p, key, durable).after
    case ClearOp(durable) => ClearAll(p, durable).after
    case ReloadOp => CacheAll(p)
  }

  /** The state after the calls `ops`, made one after another. */
  function Run(p: Prefs, ops: seq<Op>): Prefs
    decreases |ops|
  {
    if ops == [] then p else Run(Step(p, ops[0]), ops[1..])
  }
}
