/** The agreement between the stored password records and the display cache that `src/actions.rs`
    keeps by hand, as a relation on values: what breaks it, and exactly when a step keeps it. */
module Coherence {
  import opened Wrappers
  import opened ItemCache
  import opened Records

  /** `hex(sha256(..))` of the bytes fed to it. Nothing is assumed about collisions. */
  type Hasher = string -> string

  /** The records of the password dictionary by storage key. */
  type Database = map<string, PasswordRecord>

  type Cache = map<ListKey, ListItem>

  /** `hex(record.hash())`: the description and username are hashed one after the other, with
      nothing in between. */
  function StorageKey(hash: Hasher, r: PasswordRecord): string {
    hash(r.description + r.username)
  }

  ghost predicate Storable(r: PasswordRecord) { r.InRange() && r.NewlineFree() }

  /** Every record is stored under its own hash. */
  ghost predicate DbConsistent(hash: Hasher, db: Database) {
    forall g :: g in db ==> Storable(db[g]) && g == StorageKey(hash, db[g])
  }

  /** Where the cache keeps the entry of a stored record. */
  function CacheKey(lower: Lower, db: Database, g: string): ListKey
    requires g in db
  {
    KeyFromParts(lower, db[g].description, g)
  }

  /** The cached keys are exactly those of the stored records, under the stored descriptions. */
  ghost predicate Coherent(hash: Hasher, lower: Lower, db: Database, cache: Cache) {
    && DbConsistent(hash, db)
    && (forall g :: g in db ==>
          CacheKey(lower, db, g) in cache && cache[CacheKey(lower, db, g)].name == db[g].description)
    && (forall k :: k in cache ==> k.guid in db && k == CacheKey(lower, db, k.guid))
  }

  /** The cached access times and counts are the stored ones too. */
  ghost predicate Synced(lower: Lower, db: Database, cache: Cache) {
    forall g :: g in db && CacheKey(lower, db, g) in cache ==>
      var item := cache[CacheKey(lower, db, g)];
      item.atime == db[g].atime && item.count == db[g].count
  }

  /** `make_pw_item_from_record`; the display text in `extra` is not modelled. */
  function ItemOf(lower: Lower, key: string, r: PasswordRecord): ListItem {
    NewItem(lower, r.description, "", key, r.atime, r.count)
  }

  /** What storing a record, and inserting it into the cache, leave behind. */
  function AddToDb(hash: Hasher, db: Database, r: PasswordRecord): Database {
    db[StorageKey(hash, r) := r]
  }

  /** The same for a record whose text reads back as another one, or as none. */
  function AddAs(hash: Hasher, db: Database, r: PasswordRecord, back: Option<PasswordRecord>): Database {
    var key := StorageKey(hash, r);
    if back.Some? then db[key := back.value] else db - {key}
  }

  function AddToCache(hash: Hasher, lower: Lower, cache: Cache, r: PasswordRecord): Cache {
    var item := ItemOf(lower, StorageKey(hash, r), r);
    cache[item.Key() := item]
  }

  /** The key is free, or taken by a record whose description lowercases the same way. */
  ghost predicate KeyFits(hash: Hasher, lower: Lower, db: Database, r: PasswordRecord) {
    var key := StorageKey(hash, r);
    key in db ==> lower(db[key].description) == lower(r.description)
  }

  /** What is read back for the record has its description and its storage key. */
  ghost predicate Settles(hash: Hasher, r: PasswordRecord, back: Option<PasswordRecord>) {
    && back.Some? && back.value.description == r.description
    && StorageKey(hash, back.value) == StorageKey(hash, r)
  }

  /** Storing a record and caching it keeps the two in agreement exactly when the key fits and the
      record settles: a colliding record with another description is overwritten in the store but not
      in the cache, and the cache shows what was added, not what reads back. */
  lemma AddKeepsCoherenceIff(
    hash: Hasher, lower: Lower, db: Database, cache: Cache, r: PasswordRecord, back: Option<PasswordRecord>)
    requires Coherent(hash, lower, db, cache) && (back.Some? ==> Storable(back.value))
    ensures Coherent(hash, lower, AddAs(hash, db, r, back), AddToCache(hash, lower, cache, r)) <==>
      KeyFits(hash, lower, db, r) && Settles(hash, r, back)
  {
    if !KeyFits(hash, lower, db, r) {
      MisfitBreaks(hash, lower, db, cache, r, back);
    } else if !Settles(hash, r, back) {
      UnsettledBreaks(hash, lower, db, cache, r, back);
    } else {
      AddKeepsCoherence(hash, lower, db, cache, r, back.value);
    }
  }

  lemma MisfitBreaks(
    hash: Hasher, lower: Lower, db: Database, cache: Cache, r: PasswordRecord, back: Option<PasswordRecord>)
    requires Coherent(hash, lower, db, cache) && !KeyFits(hash, lower, db, r)
    ensures !Coherent(hash, lower, AddAs(hash, db, r, back), AddToCache(hash, lower, cache, r))
  {
    var key := StorageKey(hash, r);
    var (before, after) := (CacheKey(lower, db, key), ItemOf(lower, key, r).Key());
    var cache' := AddToCache(hash, lower, cache, r);
    assert before in cache' && after in cache' && before.guid == after.guid && before != after;
  }

  lemma UnsettledBreaks(
    hash: Hasher, lower: Lower, db: Database, cache: Cache, r: PasswordRecord, back: Option<PasswordRecord>)
    requires !Settles(hash, r, back)
    ensures !Coherent(hash, lower, AddAs(hash, db, r, back), AddToCache(hash, lower, cache, r))
  {
    var key := StorageKey(hash, r);
    var (k, cache') := (ItemOf(lower, key, r).Key(), AddToCache(hash, lower, cache, r));
    assert k in cache' && k.guid == key && cache'[k].name == r.description;
    assert back.Some? ==> AddAs(hash, db, r, back)[key] == back.value;
  }

  lemma AddKeepsCoherence(
    hash: Hasher, lower: Lower, db: Database, cache: Cache, r: PasswordRecord, back: PasswordRecord)
    requires Coherent(hash, lower, db, cache) && Storable(back)
    requires KeyFits(hash, lower, db, r) && Settles(hash, r, Some(back))
    ensures Coherent(hash, lower, AddAs(hash, db, r, Some(back)), AddToCache(hash, lower, cache, r))
  {
  }

  /** The cached times and counts stay right too, if what reads back has those of the record. */
  lemma AddKeepsSync(
    hash: Hasher, lower: Lower, db: Database, cache: Cache, r: PasswordRecord, back: PasswordRecord)
    requires Synced(lower, db, cache) && Settles(hash, r, Some(back))
    requires back.atime == r.atime && back.count == r.count
    ensures Synced(lower, AddAs(hash, db, r, Some(back)), AddToCache(hash, lower, cache, r))
  {
  }

  /** Dropping a record and its cache entry together keeps both properties. */
  lemma RemoveKeepsCoherence(hash: Hasher, lower: Lower, db: Database, cache: Cache, g: string)
    requires Coherent(hash, lower, db, cache) && g in db
    ensures Coherent(hash, lower, db - {g}, cache - {CacheKey(lower, db, g)})
    ensures Synced(lower, db, cache) ==> Synced(lower, db - {g}, cache - {CacheKey(lower, db, g)})
  {
  }

  /** A record that keeps its description and username may change in place: its key stays, and so
      does its cache entry. */
  lemma ChangeInPlaceKeepsCoherence(
    hash: Hasher, lower: Lower, db: Database, cache: Cache, g: string, r: PasswordRecord)
    requires Coherent(hash, lower, db, cache) && g in db && Storable(r)
    requires r.description == db[g].description && r.username == db[g].username
    ensures Coherent(hash, lower, db[g := r], cache)
  {
  }

  /** An edit takes a record out of both places and puts it back, under the key of its new contents. */
  lemma EditKeepsCoherenceIff(hash: Hasher, lower: Lower, db: Database, cache: Cache, g: string, r: PasswordRecord)
    requires Coherent(hash, lower, db, cache) && g in db && Storable(r)
    ensures var db', cache' := db - {g}, cache - {CacheKey(lower, db, g)};
            && (Coherent(hash, lower, AddToDb(hash, db', r), AddToCache(hash, lower, cache', r))
                <==> KeyFits(hash, lower, db', r))
            && (Synced(lower, db, cache) ==> Synced(lower, AddToDb(hash, db', r), AddToCache(hash, lower, cache', r)))
  {
    var db', cache' := db - {g}, cache - {CacheKey(lower, db, g)};
    RemoveKeepsCoherence(hash, lower, db, cache, g);
    AddKeepsCoherenceIff(hash, lower, db', cache', r, Some(r));
    if Synced(lower, db, cache) {
      AddKeepsSync(hash, lower, db', cache', r, r);
    }
  }

  /** `item` shows the record `r`. */
  ghost predicate Shows(item: ListItem, r: PasswordRecord) {
    item.name == r.description && item.atime == r.atime && item.count == r.count
  }

  /** A cache with the keys `before`, after the records `done` were read into it. */
  ghost predicate Reloaded(lower: Lower, db: Database, before: set<ListKey>, done: set<string>, cache: Cache)
    requires done <= db.Keys
  {
    && cache.Keys == before + (set g | g in done :: CacheKey(lower, db, g))
    && (forall g :: g in done ==> Shows(cache[CacheKey(lower, db, g)], db[g]))
  }

  lemma ReloadedOneMore(
    lower: Lower, db: Database, before: set<ListKey>, done: set<string>, cache: Cache, name: string, item: ListItem)
    requires done <= db.Keys && name in db
    requires Reloaded(lower, db, before, done, cache) && Shows(item, db[name])
    ensures Reloaded(lower, db, before, done + {name}, cache[CacheKey(lower, db, name) := item])
  {
  }

  /** A cache that holds every record's entry, and possibly entries of records that are gone, agrees
      with the store exactly when there are none of those and every record is under its own hash. */
  lemma CompleteCacheCoherentIff(hash: Hasher, lower: Lower, db: Database, cache: Cache, before: set<ListKey>)
    requires Reloaded(lower, db, before, db.Keys, cache)
    ensures Coherent(hash, lower, db, cache) <==> DbConsistent(hash, db) && before <= CacheKeys(lower, db)
    ensures Synced(lower, db, cache)
  {
    if before <= CacheKeys(lower, db) {
      forall k | k in cache ensures k.guid in db && k == CacheKey(lower, db, k.guid) {
        assert k in CacheKeys(lower, db);
      }
    } else {
      var k :| k in before && k !in CacheKeys(lower, db);
      assert k in cache;
      if k.guid in db {
        assert CacheKey(lower, db, k.guid) in CacheKeys(lower, db);
      }
    }
  }

  /** The keys under which a complete reload caches the records. */
  ghost function CacheKeys(lower: Lower, db: Database): set<ListKey> {
    set g | g in db :: CacheKey(lower, db, g)
  }

  /** Two records whose description and username run together to the same text, in that order, share
      a key whatever the hash function; storing one after the other loses the agreement. */
  lemma CollidingRecordsBreakCoherence(hash: Hasher, lower: Lower, first: PasswordRecord, second: PasswordRecord)
    requires Storable(first) && Storable(second)
    requires first.description + first.username == second.description + second.username
    requires lower(first.description) != lower(second.description)
    ensures var db, cache := AddToDb(hash, map[], first), AddToCache(hash, lower, map[], first);
            && Coherent(hash, lower, db, cache)
            && !Coherent(hash, lower, AddToDb(hash, db, second), AddToCache(hash, lower, cache, second))
  {
    var db, cache := AddToDb(hash, map[], first), AddToCache(hash, lower, map[], first);
    AddKeepsCoherenceIff(hash, lower, map[], map[], first, Some(first));
    AddKeepsCoherenceIff(hash, lower, db, cache, second, Some(second));
  }

  /** Such a pair: "a" with user "bc", and "ab" with user "c". */
  lemma CollidingPairExists()
    ensures var first := NEW_PASSWORD.(description := "a", username := "bc");
            var second := NEW_PASSWORD.(description := "ab", username := "c");
            && Storable(first) && Storable(second)
            && first.description + first.username == second.description + second.username
  {
    assert "a" + "bc" == "ab" + "c";
  }
}
