/**
 * SharedPref: a versioned preference set with an in-memory cache in front of its store.
 * Each method updates the object's two maps in place and is proved to do exactly what the
 * matching function of SharedPrefSpec describes.
 */
module SharedPrefs {
  import opened PrefValues
  import opened PrefStore
  import S = SharedPrefSpec

  class SharedPref {
    /** The in-memory cache. */
    var cache: Entries
    /** The persistent store this preference set is bound to. */
    var store: Entries
    /** The version the consumer declares (`getVersion()`). */
    const version: Int32
    /** The calls to `migrate` made while constructing this object. */
    ghost var migrations: seq<S.Migration>

    function State(): S.Prefs
      reads this
    {
      S.Prefs(cache, store)
    }

    /** The object invariant: the cache mirrors every store entry. */
    ghost predicate Valid()
      reads this
    {
      S.Coherent(State())
    }

    /**
     * Opens the preference set over the store `initial`. The version gate calls `migrate`
     * when the saved version differs from `declared`, writes `declared` back with a commit
     * whose success is `tagDurable` (and is otherwise ignored), and fills the cache.
     */
    constructor (initial: Entries, declared: Int32, migrate: S.Migrator, tagDurable: bool)
      requires S.VersionReadable(initial)
      ensures version == declared
      ensures migrations == S.Migrations(initial, declared)
      ensures State() == S.Construct(initial, declared, migrate, tagDurable)
      ensures Valid()
    {
      version := declared;
      cache := map[];
      var saved := Lookup(initial, S.VersionKey, IntValue(S.DefaultVersion)).value.i;
      var migrated := initial;
      ghost var calls := [];
      if saved != declared {
        migrated := migrate(saved, declared, migrated);
        calls := calls + [S.Migration(saved, declared)];
      }
      store := Commit(migrated, PutEntry(S.VersionKey, IntValue(declared)), tagDurable);
      migrations := calls;
      new;
      CacheAll();
    }

    /** A typed getter; the kind asked for is the kind of `def`. */
    method Get(key: string, def: Value) returns (r: Result<Value>)
      modifies this`cache
      ensures S.Get(old(State()), key, def) == S.Reply(r, State())
      ensures old(Valid()) ==> Valid()
    {
      if key in cache {
        r := Cast(key, cache[key], KindOf(def));
        return;
      }
      r := Lookup(store, key, def);
      if r.Ok? {
        cache := cache[key := r.value];
      }
    }

    /** `containsKey`. */
    method ContainsKey(key: string) returns (b: bool)
      ensures b == S.ContainsKey(State(), key)
    {
      b := key in cache || key in store;
    }

    /** A typed putter; `durable` is what the store's commit reports. */
    method Put(key: string, value: Value, durable: bool) returns (ok: bool)
      modifies this`cache, this`store
      ensures S.Put(old(State()), key, value, durable) == S.Reply(ok, State())
      ensures old(Valid()) ==> Valid()
    {
      store := Commit(store, PutEntry(key, value), durable);
      ok := durable;
      if ok {
        cache := cache[key := value];
      }
    }

    /** `deleteKey`; `durable` is what the store's commit reports. */
    method DeleteKey(key: string, durable: bool) returns (ok: bool)
      modifies this`cache, this`store
      ensures S.Delete(old(State()), key, durable) == S.Reply(ok, State())
      ensures old(Valid()) ==> Valid()
    {
      store := Commit(store, RemoveEntry(key), durable);
      ok := durable;
      if ok {
        cache := cache - {key};
      }
    }

    /** `clearAll`; `durable` is what the store's commit reports. */
    method ClearAll(durable: bool) returns (ok: bool)
      modifies this`cache, this`store
      ensures S.ClearAll(old(State()), durable) == S.Reply(ok, State())
      ensures old(Valid()) ==> Valid()
    {
      store := Commit(store, ClearEntries, durable);
      ok := durable;
      if ok {
        cache := map[];
      }
    }

    /** `cacheAll`: the cache becomes a snapshot of the store. */
    method CacheAll()
      modifies this`cache
      ensures State() == S.CacheAll(old(State()))
      ensures Valid()
    {
      cache := map[];
      cache := cache + store;
    }
  }
}
