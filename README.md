# DroidPref SharedPref, modelled in Dafny

DroidPref's `SharedPref` is an abstract base class for a named, versioned set of Android
preferences. Each instance puts an in-memory cache (a `HashMap`) in front of the persistent
store (`SharedPreferences`). The class has two parts:

- **The version gate**, run once by the constructor. It reads the saved version under the
  reserved key `"file_version"` (1 when absent). It calls the consumer's `migrate(old, new)`
  only when that version differs from `getVersion()`. It then writes the declared version back
  and fills the cache from the whole store.
- **The cache protocol.** Typed getters answer from the cache. On a miss they read the store,
  falling back to the caller's default, and seed the cache with the result. Putters,
  `deleteKey` and `clearAll` commit to the store first, and they change the cache only when the
  commit reports success. `cacheAll` replaces the cache with a snapshot of the store.

The project has five modules:

- `PrefValues` (`values.dfy`): the tagged `Value` (bool, `Int32`, `Int64`, an opaque 32-bit
  float, string, set of strings) and the Java cast a typed accessor applies.
- `PrefStore` (`store.dfy`): the store as a `map<string, Value>`, with its typed read and its
  one-edit commit. Whether a commit succeeds is a boolean the caller passes in. A commit that
  does not succeed changes nothing.
- `SharedPrefSpec` (`spec.dfy`): every operation as a function from `Prefs(cache, store)` to a
  result and a new state; the version gate (`Migrations`, `Migrated`, `Construct`); and a
  consumer session as a sequence of calls (`Op`, `Step`, `Run`).
- `SharedPrefs` (`shared_pref.dfy`): the class `SharedPref` with the `cache` and `store` fields.
  Its constructor and methods change those fields in place. Each is proved to produce exactly
  the state and result of the matching `SharedPrefSpec` function, and to keep the invariant
  `Valid()`: every store key is in the cache with the same value.
- `SharedPrefProperties` (`properties.dfy`): lemmas about reads, writes, the invariant over any
  session, and the version gate.

The six typed getters and the six typed putters are each modelled as one operation over the
tagged value. The kind a getter asks for is the kind of its default. A cached or stored value of
another kind gives the result `Failure(ClassCastException(...))` and leaves the state as it
was, because the Java cast throws before the cache is touched.

The consumer's `migrate` is a function from (old version, new version, store) to the new store.
The class logs each call in the ghost field `migrations`.

The model takes a commit that reports failure to leave the store as it was. Under that
assumption, a failed write of the version entry (SharedPref.java line 50, whose result is
ignored) keeps the old version in the store. The next construction then calls `migrate` again
with the same versions (`FailedVersionWriteRemigrates`); it does not skip the migration.

A getter miss stores its result in the cache even when the store lacks the key, so the cache
then holds the caller's default (SharedPref.java lines 68-69). After that, `containsKey` reports
the key present, and a later read with a different default still returns the first one
(`SeededDefaultShadows`). The model keeps this behaviour as the code has it.

## Model

| member | source | states |
|---|---|---|
| `PrefStore.Lookup` | droidpref/src/main/java/org/esmaeeli/droid/pref/SharedPref.java:68 | A typed store read returns the default when the key is absent, and the stored value when it is of the kind asked for. It fails, with a `ClassCastException`, exactly when the key holds a value of another kind. |
| `SharedPrefSpec.Get` | droidpref/src/main/java/org/esmaeeli/droid/pref/SharedPref.java:61-159 | A getter never changes the store. A successful read returns the kind asked for and leaves that value in the cache under the key. A cached value of another kind, or on a miss a stored value of another kind, gives a `ClassCastException` failure, and a failure changes nothing. Other cache entries are untouched. A hit changes nothing. Coherence is preserved. |
| `SharedPrefSpec.Put` | droidpref/src/main/java/org/esmaeeli/droid/pref/SharedPref.java:172-266 | A putter returns the commit result. On success both the store and the cache hold the new value under the key. On failure nothing changes. Other keys are untouched in both maps. Coherence is preserved. |
| `SharedPrefSpec.Delete` | droidpref/src/main/java/org/esmaeeli/droid/pref/SharedPref.java:269-283 | `deleteKey` returns the commit result. On success the key is in neither map. On failure nothing changes. Other keys are untouched. Coherence is preserved. |
| `SharedPrefSpec.ClearAll` | droidpref/src/main/java/org/esmaeeli/droid/pref/SharedPref.java:285-298 | `clearAll` returns the commit result. On success no key is in either map. On failure nothing changes. Coherence is preserved. |
| `SharedPrefSpec.CacheAll` | droidpref/src/main/java/org/esmaeeli/droid/pref/SharedPref.java:300-311 | After `cacheAll` the cache holds exactly the store's keys. The store is unchanged. The result is coherent. |
| `SharedPrefSpec.Construct` | droidpref/src/main/java/org/esmaeeli/droid/pref/SharedPref.java:41-52 | After construction the cache equals the store. When the version write commits, the store holds the declared version and otherwise agrees with the migrated store. When the write fails, the store is the migrated store. |
| `SharedPrefs.SharedPref.constructor` | droidpref/src/main/java/org/esmaeeli/droid/pref/SharedPref.java:41-52 | The constructor's fields equal `Construct`. The logged `migrate` calls equal `Migrations`. `Valid()` holds. |
| `SharedPrefs.SharedPref.Get` | droidpref/src/main/java/org/esmaeeli/droid/pref/SharedPref.java:61-159 | The result and the new cache and store are those of `SharedPrefSpec.Get`. `Valid()` is preserved. |
| `SharedPrefs.SharedPref.ContainsKey` | droidpref/src/main/java/org/esmaeeli/droid/pref/SharedPref.java:162-169 | Returns whether the key is in the cache or in the store. It changes nothing. |
| `SharedPrefs.SharedPref.Put` | droidpref/src/main/java/org/esmaeeli/droid/pref/SharedPref.java:172-266 | The result and the new cache and store are those of `SharedPrefSpec.Put`. `Valid()` is preserved. |
| `SharedPrefs.SharedPref.DeleteKey` | droidpref/src/main/java/org/esmaeeli/droid/pref/SharedPref.java:269-283 | The result and the new cache and store are those of `SharedPrefSpec.Delete`. `Valid()` is preserved. |
| `SharedPrefs.SharedPref.ClearAll` | droidpref/src/main/java/org/esmaeeli/droid/pref/SharedPref.java:285-298 | The result and the new cache and store are those of `SharedPrefSpec.ClearAll`. `Valid()` is preserved. |
| `SharedPrefs.SharedPref.CacheAll` | droidpref/src/main/java/org/esmaeeli/droid/pref/SharedPref.java:300-311 | The new cache is the store's snapshot. `Valid()` holds afterwards. |
| `SharedPrefProperties.GetHit` | droidpref/src/main/java/org/esmaeeli/droid/pref/SharedPref.java:65-67 | A hit returns the cached value and changes neither map. |
| `SharedPrefProperties.GetMiss` | droidpref/src/main/java/org/esmaeeli/droid/pref/SharedPref.java:68-70 | A miss returns the stored value, or the default when the store lacks the key. Afterwards the cache holds that result under the key. |
| `SharedPrefProperties.StoredKeysHit` | droidpref/src/main/java/org/esmaeeli/droid/pref/SharedPref.java:61-70 | Under coherence, a read of a stored key is a hit. It returns what a direct store read would and changes nothing. |
| `SharedPrefProperties.MissYieldsDefault` | droidpref/src/main/java/org/esmaeeli/droid/pref/SharedPref.java:68-70 | Under coherence, a miss always returns the default and seeds it into the cache. |
| `SharedPrefProperties.SeededDefaultShadows` | droidpref/src/main/java/org/esmaeeli/droid/pref/SharedPref.java:61-70 | After a miss on an absent key, a read with another default returns the first default. `containsKey` reports the key present although the store lacks it. |
| `SharedPrefProperties.ContainsKeyByCache` | droidpref/src/main/java/org/esmaeeli/droid/pref/SharedPref.java:165 | Under coherence, `containsKey` holds exactly when the key is cached. |
| `SharedPrefProperties.ReadYourWrite` | droidpref/src/main/java/org/esmaeeli/droid/pref/SharedPref.java:172-186 | After a successful put, a read of the key returns the written value from the cache and changes nothing. |
| `SharedPrefProperties.FailedPutKeepsPrior` | droidpref/src/main/java/org/esmaeeli/droid/pref/SharedPref.java:176-180 | After a failed put, a read returns the value cached before the put. |
| `SharedPrefProperties.DeleteForgets` | droidpref/src/main/java/org/esmaeeli/droid/pref/SharedPref.java:273-277 | After a successful delete, `containsKey` is false and a read returns its default. |
| `SharedPrefProperties.ClearForgets` | droidpref/src/main/java/org/esmaeeli/droid/pref/SharedPref.java:289-292 | After a successful `clearAll`, no key is reported present, `"file_version"` included, and a read returns its default. |
| `SharedPrefProperties.StepPreservesCoherence` | droidpref/src/main/java/org/esmaeeli/droid/pref/SharedPref.java:61-311 | Any single consumer call keeps every store entry mirrored in the cache. |
| `SharedPrefProperties.RunPreservesCoherence` | droidpref/src/main/java/org/esmaeeli/droid/pref/SharedPref.java:61-311 | Any sequence of consumer calls keeps every store entry mirrored in the cache. |
| `SharedPrefProperties.CoherentForLifetime` | droidpref/src/main/java/org/esmaeeli/droid/pref/SharedPref.java:41-311 | From construction on, with no other writer of the store, the cache mirrors the store after any calls. |
| `SharedPrefSpec.SavedVersion` | droidpref/src/main/java/org/esmaeeli/droid/pref/SharedPref.java:46 | The saved version read through `getInt("file_version", 1)` is the store's version entry, or 1 when the store has none. |
| `SharedPrefProperties.MigratesIffVersionDiffers` | droidpref/src/main/java/org/esmaeeli/droid/pref/SharedPref.java:46-49 | `migrate` is called at most once. It is called exactly when the store's version entry (1 when absent) differs from the declared one, with (saved, declared) as its arguments. |
| `SharedPrefProperties.MigrationLogMatchesEffect` | droidpref/src/main/java/org/esmaeeli/droid/pref/SharedPref.java:47-49 | When no call is logged, the migration step leaves the store as it was. When one call is logged, the store after the step is `migrate` applied with that call's arguments. |
| `SharedPrefProperties.FreshStoreMigratesFromOne` | droidpref/src/main/java/org/esmaeeli/droid/pref/SharedPref.java:46-49 | A store without a version entry migrates from 1. With declared version 1 it never migrates. |
| `SharedPrefProperties.NoMigrationIgnoresCallback` | droidpref/src/main/java/org/esmaeeli/droid/pref/SharedPref.java:46-51 | When no migration is due, construction does not depend on the callback. The store only gains the version entry. |
| `SharedPrefProperties.ConstructionSettlesVersion` | droidpref/src/main/java/org/esmaeeli/droid/pref/SharedPref.java:50-51 | After a durable version write, the store is at the declared version and the cache equals the store. Constructing again with that version does not migrate. |
| `SharedPrefProperties.UpgradeMigratesOnce` | droidpref/src/main/java/org/esmaeeli/droid/pref/SharedPref.java:41-52 | A fresh store at version 1 does not migrate. Declaring 2 next migrates once, from 1 to 2. Declaring 2 again does not migrate. |
| `SharedPrefProperties.FailedVersionWriteRemigrates` | droidpref/src/main/java/org/esmaeeli/droid/pref/SharedPref.java:46-50 | Suppose the version write fails and the migration left the version entry alone. Then the next construction makes the same `migrate` call again. |
| `SharedPrefProperties.ClearedStoreLooksFresh` | droidpref/src/main/java/org/esmaeeli/droid/pref/SharedPref.java:285-298 | After a successful `clearAll`, the next construction treats the store as being at version 1. |

## Left out

- The `ReentrantReadWriteLock` (fair, shared for reads, exclusive for writes) is not modelled. The operations run one at a time, and concurrent callers are not modelled.
- The getters hold only the shared read lock, yet on a miss they write the cache, a plain `HashMap` (SharedPref.java lines 63-69 and the five getters after it). Two concurrent misses can therefore race on the map. The model, being sequential, does not capture this hazard and does not establish it.
- Android's `Context`, `SharedPreferences` and `Editor.commit()` are not modelled. They are foreign calls. The store is a map, and each commit's success is a parameter. A commit that fails is taken to leave the store unchanged. Android's own in-memory copy updating before a disk write fails is not modelled.
- `getName()` is not modelled. It only selects the store, which the constructor receives directly.
- `getVersion()` is the constructor's `declared` parameter. It is taken to return the same value each time it is called.
- `migrate` is a total function on the store. If it throws, nothing is modelled. Its own calls through the getters and putters are folded into its effect on the store. Any cache entries those calls create are discarded by the `cacheAll` that follows.
- `null` string and string-set values and `null` defaults are not modelled.
- Float values are opaque 32-bit payloads. No float arithmetic or float equality rules are modelled.
- Other processes or instances writing the same store are not modelled. Coherence is proved only when this object is the store's only writer and no cached string set is changed in place.
- String sets are values in the model. In the source, the cache holds the very `Set<String>` object passed to `putStringSet` (line 258) or returned by the store's `getStringSet` (lines 152-153), and hands that object out on a hit (line 150). A caller that later changes that set changes the cached value without any commit, which can break coherence. This aliasing is not modelled.
- SharedPrefSpec.Construct: requires, like `SharedPrefSpec.SavedVersion`, `SharedPrefSpec.Migrations` and `SharedPrefSpec.Migrated`, that the `"file_version"` entry, if present, holds an `int`. On any other entry, line 46 throws a `ClassCastException`, which is not modelled.
- SharedPrefs.SharedPref.constructor: requires that the `"file_version"` entry, if present, holds an `int`. The source instead lets the `ClassCastException` from `getInt` escape the constructor.
