/**
 * What SharedPref promises across calls: how reads are served, what a write leaves behind,
 * that the cache keeps mirroring the store, and when the version gate migrates.
 */
module SharedPrefProperties {
  import opened PrefValues
  import opened PrefStore
  import opened SharedPrefSpec

  // ---------------------------------------------------------------------------------------
  // Reads

  /** A getter hit returns the cached value and changes neither the cache nor the store. */
  lemma GetHit(p: Prefs, key: string, def: Value)
    requires key in p.cache && KindOf(p.cache[key]) == KindOf(def)
    ensures Get(p, key, def) == Reply(Ok(p.cache[key]), p)
  {
  }

  /**
   * A getter miss yields what the store holds under the key, or `def` when it holds nothing,
   * and afterwards the cache holds that result under the key.
   */
  lemma GetMiss(p: Prefs, key: string, def: Value)
    requires key !in p.cache
    ensures key in p.store && KindOf(p.store[key]) == KindOf(def) ==>
      Get(p, key, def) == Reply(Ok(p.store[key]), p.(cache := p.cache[key := p.store[key]]))
    ensures key !in p.store ==>
      Get(p, key, def) == Reply(Ok(def), p.(cache := p.cache[key := def]))
  {
  }

  /**
   * While the cache mirrors the store, a read of a stored key is served from the cache,
   * changes nothing, and returns what reading the store directly would.
   */
  lemma StoredKeysHit(p: Prefs, key: string, def: Value)
    requires Coherent(p) && key in p.store
    ensures key in p.cache
    ensures Get(p, key, def) == Reply(Lookup(p.store, key, def), p)
  {
  }

  /** While the cache mirrors the store, a getter miss can only return the default. */
  lemma MissYieldsDefault(p: Prefs, key: string, def: Value)
    requires Coherent(p) && key !in p.cache
    ensures Get(p, key, def) == Reply(Ok(def), Prefs(p.cache[key := def], p.store))
  {
  }

  /**
   * Once a read of an absent key has seeded the cache with its default, a later read with
   * another default still returns the first one, and `containsKey` reports the key present
   * although the store does not hold it.
   */
  lemma SeededDefaultShadows(p: Prefs, key: string, first: Value, second: Value)
    requires key !in p.cache && key !in p.store
    requires KindOf(first) == KindOf(second) && first != second
    ensures var seeded := Get(p, key, first).after;
      && Get(seeded, key, second).result == Ok(first)
      && Lookup(seeded.store, key, second) == Ok(second)
      && ContainsKey(seeded, key) && key !in seeded.store
  {
  }

  /** While the cache mirrors the store, `containsKey` is decided by the cache alone. */
  lemma ContainsKeyByCache(p: Prefs, key: string)
    requires Coherent(p)
    ensures ContainsKey(p, key) <==> key in p.cache
  {
  }

  // ---------------------------------------------------------------------------------------
  // Writes followed by reads

  /** A successful put is read back from the cache, without touching the store. */
  lemma ReadYourWrite(p: Prefs, key: string, value: Value, def: Value)
    requires KindOf(def) == KindOf(value)
    ensures var written := Put(p, key, value, true).after;
      Get(written, key, def) == Reply(Ok(value), written)
  {
  }

  /** After a failed put, the value cached before it is still what a read returns. */
  lemma FailedPutKeepsPrior(p: Prefs, key: string, value: Value, def: Value)
    requires key in p.cache && KindOf(p.cache[key]) == KindOf(def)
    ensures var attempted := Put(p, key, value, false);
      !attempted.result && Get(attempted.after, key, def).result == Ok(p.cache[key])
  {
  }

  /**
   * After a successful delete the key is reported absent, and the next read returns the
   * default it is given.
   */
  lemma DeleteForgets(p: Prefs, key: string, def: Value)
    ensures var deleted := Delete(p, key, true).after;
      && !ContainsKey(deleted, key)
      && Get(deleted, key, def).result == Ok(def)
  {
  }

  /**
   * After a successful `clearAll` every key, the version entry included, is reported absent,
   * and every read returns its default.
   */
  lemma ClearForgets(p: Prefs, key: string, def: Value)
    ensures var cleared := ClearAll(p, true).after;
      && !ContainsKey(cleared, key)
      && !ContainsKey(cleared, VersionKey)
      && Get(cleared, key, def).result == Ok(def)
  {
  }

  // ---------------------------------------------------------------------------------------
  // The coherence invariant over a consumer's whole session

  /** Any single call keeps the cache a mirror of the store. */
  lemma StepPreservesCoherence(p: Prefs, op: Op)
    requires Coherent(p)
    ensures Coherent(Step(p, op))
  {
  }

  /** Any sequence of calls keeps the cache a mirror of the store. */
  lemma {:induction false} RunPreservesCoherence(p: Prefs, ops: seq<Op>)
    requires Coherent(p)
    ensures Coherent(Run(p, ops))
    decreases |ops|
  {
    if ops != [] {
      StepPreservesCoherence(p, ops[0]);
      RunPreservesCoherence(Step(p, ops[0]), ops[1..]);
    }
  }

  /**
   * From construction on, with no other writer of the store, every store entry is in the
   * cache with the same value, whatever calls the consumer makes.
   */
  lemma CoherentForLifetime(store: Entries, declared: Int32, migrate: Migrator, tagDurable: bool, ops: seq<Op>)
    requires VersionReadable(store)
    ensures Coherent(Run(Construct(store, declared, migrate, tagDurable), ops))
  {
    RunPreservesCoherence(Construct(store, declared, migrate, tagDurable), ops);
  }

  // ---------------------------------------------------------------------------------------
  // The version gate

  /**
   * `migrate` is called at most once, exactly when the store's version entry (1 when there is
   * none) differs from the declared version, and then with that version as the old one and the
   * declared as the new.
   */
  lemma MigratesIffVersionDiffers(store: Entries, declared: Int32)
    requires VersionReadable(store)
    ensures |Migrations(store, declared)| <= 1
    ensures Migrations(store, declared) == [] <==>
      || (VersionKey in store && store[VersionKey] == IntValue(declared))
      || (VersionKey !in store && declared == 1)
    ensures Migrations(store, declared) != [] ==>
      Migrations(store, declared) == [Migration(SavedVersion(store), declared)]
  {
  }

  /**
   * The logged `migrate` calls match the migration step's effect on the store: no call leaves
   * the store as it was, and the one call is applied with its own arguments.
   */
  lemma MigrationLogMatchesEffect(store: Entries, declared: Int32, migrate: Migrator)
    requires VersionReadable(store)
    ensures Migrations(store, declared) == [] ==> Migrated(store, declared, migrate) == store
    ensures forall m :: Migrations(store, declared) == [m] ==>
      Migrated(store, declared, migrate) == migrate(m.oldVersion, m.newVersion, store)
  {
  }

  /** A store without a version entry is at version 1: it migrates from 1, and never when 1 is declared. */
  lemma FreshStoreMigratesFromOne(store: Entries, declared: Int32)
    requires VersionKey !in store
    ensures Migrations(store, declared) == if declared == 1 then [] else [Migration(1, declared)]
  {
  }

  /**
   * When no migration is due, construction does not depend on the migration callback: the
   * store only gains the version entry and the cache mirrors it.
   */
  lemma NoMigrationIgnoresCallback(store: Entries, declared: Int32, m1: Migrator, m2: Migrator, tagDurable: bool)
    requires VersionReadable(store) && Migrations(store, declared) == []
    ensures Construct(store, declared, m1, tagDurable) == Construct(store, declared, m2, tagDurable)
    ensures var r := Construct(store, declared, m1, tagDurable);
      r.store == (if tagDurable then store[VersionKey := IntValue(declared)] else store)
  {
  }

  /**
   * After a construction whose version write was durable, the store is at the declared
   * version, the cache holds the whole store, and constructing again with the same declared
   * version does not migrate.
   */
  lemma ConstructionSettlesVersion(store: Entries, declared: Int32, migrate: Migrator)
    requires VersionReadable(store)
    ensures var r := Construct(store, declared, migrate, true);
      && VersionReadable(r.store)
      && SavedVersion(r.store) == declared
      && r.cache == r.store
      && Migrations(r.store, declared) == []
  {
  }

  /** A first launch at version 1 never migrates; the next launch at version 2 migrates once, from 1 to 2; later launches at 2 do not. */
  lemma UpgradeMigratesOnce(migrate: Migrator)
    ensures Migrations(map[], 1) == []
    ensures var v1 := Construct(map[], 1, migrate, true).store;
      && VersionReadable(v1)
      && Migrations(v1, 2) == [Migration(1, 2)]
      && var v2 := Construct(v1, 2, migrate, true).store;
      && VersionReadable(v2)
      && Migrations(v2, 2) == []
  {
  }

  /**
   * If the version write fails and the migration left the version entry as it was, the next
   * construction makes the same migration call again.
   */
  lemma FailedVersionWriteRemigrates(store: Entries, declared: Int32, migrate: Migrator)
    requires VersionReadable(store)
    requires var migrated := Migrated(store, declared, migrate);
      (VersionKey in migrated <==> VersionKey in store)
      && (VersionKey in store ==> migrated[VersionKey] == store[VersionKey])
    ensures var r := Construct(store, declared, migrate, false);
      VersionReadable(r.store) && Migrations(r.store, declared) == Migrations(store, declared)
  {
  }

  /**
   * `clearAll` removes the version entry too, so the next construction treats the store as
   * fresh: it migrates from version 1, whatever version the store was at before.
   */
  lemma ClearedStoreLooksFresh(p: Prefs, declared: Int32)
    ensures var cleared := ClearAll(p, true).after.store;
      Migrations(cleared, declared) == if declared == 1 then [] else [Migration(1, declared)]
  {
  }
}
