/** The password operations of `src/actions.rs` and the autotype of `src/ux.rs`, each updating the
    record store and the display cache separately. The cache asserts of the original are asserts
    here: none of them can fire. */
module Actions {
  import opened Wrappers
  import opened ItemCache
  import opened ListView
  import opened Records
  import opened Coherence
  import opened Storage

  /** How records become text and are read back, by `from_vec` and by `try_from`. */
  datatype Codec = Codec(
    toText: PasswordRecord -> string,
    fromVec: string -> Result<PasswordRecord, ParseError>,
    tryFrom: string -> Result<PasswordRecord, ParseError>)
  {
    /** Both readers return every printed record that the forms let through. */
    ghost predicate Lossless() {
      forall r :: Storable(r) ==> fromVec(toText(r)) == Ok(r) && tryFrom(toText(r)) == Ok(r)
    }

    /** Whatever is read is in range and without newlines. */
    ghost predicate Clean() {
      forall text :: fromVec(text).Ok? ==> Storable(fromVec(text).value)
    }

    /** Of a printed record in range both readers make the same, and if they make one its times and
        count are those printed. */
    ghost predicate Definite() {
      forall r: PasswordRecord :: r.InRange() ==>
        && tryFrom(toText(r)) == fromVec(toText(r))
        && (fromVec(toText(r)).Ok? ==> SameNumbers(r, fromVec(toText(r)).value))
    }

    ghost predicate Lawful() { Lossless() && Clean() && Definite() }

    /** What storing a record comes to. */
    function ReadBack(r: PasswordRecord): Option<PasswordRecord> {
      match fromVec(toText(r))
      case Ok(back) => Some(back)
      case Err(_) => None
    }
  }

  ghost predicate SameNumbers(a: PasswordRecord, b: PasswordRecord) {
    a.ctime == b.ctime && a.atime == b.atime && a.count == b.count
  }

  /** The record format of `src/storage.rs` is such a codec. */
  function RecordFormat(): (codec: Codec) {
    Codec(PrintPassword,
          text => ParsePassword(CLEARED_PASSWORD, Some(text)),
          text => ParsePassword(NEW_PASSWORD, Some(text)))
  }

  lemma RecordFormatIsLawful()
    ensures RecordFormat().Lawful()
  {
    var codec := RecordFormat();
    forall r | Storable(r) ensures codec.fromVec(codec.toText(r)) == Ok(r) && codec.tryFrom(codec.toText(r)) == Ok(r) {
      PasswordRoundTrip(r, CLEARED_PASSWORD);
      PasswordRoundTrip(r, NEW_PASSWORD);
    }
    forall text | codec.fromVec(text).Ok? ensures Storable(codec.fromVec(text).value) {
      ParsedPasswordIsClean(text, CLEARED_PASSWORD);
    }
    forall r: PasswordRecord | r.InRange()
      ensures codec.tryFrom(codec.toText(r)) == codec.fromVec(codec.toText(r))
      ensures codec.fromVec(codec.toText(r)).Ok? ==> SameNumbers(r, codec.fromVec(codec.toText(r)).value)
    {
      PrintedParsesAgree(r);
      PrintedNumbersComeBack(r, CLEARED_PASSWORD);
    }
  }

  // ----- which records settle

  /** Two different records hash alike, although their texts differ. */
  ghost predicate HashesCollide(hash: Hasher, a: PasswordRecord, b: PasswordRecord) {
    a.description + a.username != b.description + b.username && StorageKey(hash, a) == StorageKey(hash, b)
  }

  /** A record of a scanned code, whose description and username no form has checked: it settles
      exactly if neither holds a newline, unless its hash is also that of another text. */
  lemma ScannedSettlesIff(codec: Codec, hash: Hasher, r: PasswordRecord)
    requires codec.Lawful() && r.InRange() && '\n' !in r.password && '\n' !in r.notes
    ensures r.NewlineFree() ==> codec.ReadBack(r) == Some(r) && Settles(hash, r, codec.ReadBack(r))
    ensures Settles(hash, r, codec.ReadBack(r)) && !r.NewlineFree() ==> HashesCollide(hash, r, codec.ReadBack(r).value)
  {
    if Settles(hash, r, codec.ReadBack(r)) && '\n' in r.username {
      var back := codec.ReadBack(r).value;
      assert '\n' in r.description + r.username && '\n' !in back.description + back.username;
    }
  }

  /** Two names for one record: a scanned description that carries a username line is cached under the
      whole of it and read back as its first line, under another hash. */
  lemma InjectionUnsettles(hash: Hasher, r: PasswordRecord, name: string, user: string)
    requires r.InRange() && r.description == name + "\nusername:" + user
    requires r.(description := name, username := user + r.username).NewlineFree()
    ensures var back := RecordFormat().ReadBack(r);
            && back == Some(r.(description := name, username := user + r.username))
            && !Settles(hash, r, back)
  {
    InjectedUsernameIsRead(r, name, user, CLEARED_PASSWORD);
    assert |r.description| > |name|;
  }

  /** The records of the database are those the dictionary reads as, and both readers agree on all of
      its texts. */
  ghost predicate Mirrors(codec: Codec, dict: map<string, string>, db: Database) {
    && (forall g :: g in db ==> g in dict && codec.fromVec(dict[g]) == Ok(db[g]))
    && (forall g :: g in dict && g !in db ==> codec.fromVec(dict[g]).Err?)
    && (forall g :: g in dict ==> codec.tryFrom(dict[g]) == codec.fromVec(dict[g]))
  }

  lemma MirrorsPut(codec: Codec, dict: map<string, string>, db: Database, hash: Hasher, r: PasswordRecord)
    requires codec.Lawful() && Mirrors(codec, dict, db) && r.InRange()
    ensures Mirrors(codec, dict[StorageKey(hash, r) := codec.toText(r)], AddAs(hash, db, r, codec.ReadBack(r)))
  {
  }

  lemma MirrorsDrop(codec: Codec, dict: map<string, string>, db: Database, key: string)
    requires Mirrors(codec, dict, db)
    ensures Mirrors(codec, dict - {key}, db - {key})
  {
  }

  /** The four fields the edit form offers, with newlines refused by its validators. */
  datatype Form = Form(description: string, username: string, password: string, notes: string) {
    ghost predicate Valid() {
      '\n' !in description && '\n' !in username && '\n' !in password && '\n' !in notes
    }
  }

  function Edited(r: PasswordRecord, form: Form, now: nat): PasswordRecord {
    r.(description := form.description, username := form.username, password := form.password,
       notes := form.notes, count := r.count + 1, atime := now, ctime := now)
  }

  function Used(r: PasswordRecord, now: nat): PasswordRecord {
    r.(count := r.count + 1, atime := now)
  }

  /** Field by field, what an edit makes of a record. */
  ghost predicate IsEditOf(after: PasswordRecord, before: PasswordRecord, form: Form, now: nat) {
    && after.description == form.description && after.username == form.username
    && after.password == form.password && after.notes == form.notes
    && after.count == before.count + 1 && after.atime == now && after.ctime == now
    && after.version == before.version
  }

  /** Field by field, what a use makes of a record: texts and version stay. */
  ghost predicate IsUseOf(after: PasswordRecord, before: PasswordRecord, now: nat, created: nat) {
    && after.description == before.description && after.username == before.username
    && after.password == before.password && after.notes == before.notes
    && after.count == before.count + 1 && after.atime == now && after.ctime == created
    && after.version == before.version
  }

  /** The list shows a record with this description, time and count under this storage key. */
  ghost predicate Lists(
    cache: Cache, lower: Lower, key: string, description: string, atime: nat, count: nat)
  {
    var k := ListKey(lower(description), key);
    && k in cache && cache[k].name == description && cache[k].sortableName == lower(description)
    && cache[k].guid == key && cache[k].atime == atime && cache[k].count == count
  }

  /** The edited record is under its key, and no longer under the old one unless that is the same; all
      others are as they were. */
  ghost predicate EditMoved(before: Database, after: Database, guid: string, key: string, form: Form, now: nat)
    requires guid in before
  {
    && key in after && IsEditOf(after[key], before[guid], form, now)
    && (guid != key ==> guid !in after)
    && (forall g :: g != guid && g != key ==> (g in after <==> g in before) && (g in after ==> after[g] == before[g]))
  }

  lemma EditMoves(hash: Hasher, db: Database, guid: string, form: Form, now: nat)
    requires guid in db
    ensures EditMoved(db, AddToDb(hash, db - {guid}, Edited(db[guid], form, now)), guid,
              hash(form.description + form.username), form, now)
  {
  }

  /** A record that was used keeps its place. */
  lemma UseKeepsCoherence(hash: Hasher, lower: Lower, db: Database, cache: Cache, g: string, used: PasswordRecord)
    requires Coherent(hash, lower, db, cache) && g in db && used.InRange()
    requires used == db[g].(count := used.count, atime := used.atime, ctime := used.ctime)
    ensures Storable(used) && StorageKey(hash, used) == g && (db - {g})[g := used] == db[g := used]
    ensures Coherent(hash, lower, db[g := used], cache)
  {
    assert Storable(db[g]);
    ChangeInPlaceKeepsCoherence(hash, lower, db, cache, g, used);
  }

  class ActionManager {
    const codec: Codec
    const hash: Hasher
    const view: FilteredListView
    const storage: Manager
    ghost var db: Database

    /** Holds at all times: the cache is a proper list, the database is what the store reads as, and no
        call to the store is about to fail. */
    ghost predicate Valid()
      reads this, view, storage
    {
      view.Valid() && codec.Lawful() && Mirrors(codec, storage.dict, db) && storage.fault.None?
    }

    ghost predicate InAgreement()
      reads this, view
    {
      Coherent(hash, view.lower, db, view.Contents())
    }

    ghost predicate InSync()
      reads this, view
    {
      Synced(view.lower, db, view.Contents())
    }

    constructor (codec: Codec, hash: Hasher, lower: Lower)
      requires codec.Lawful()
      ensures Valid() && InAgreement() && InSync() && db == map[]
      ensures fresh(view) && fresh(storage)
    {
      this.codec := codec;
      this.hash := hash;
      view := new FilteredListView(lower);
      storage := new Manager();
      db := map[];
    }

    method GetRecord(guid: string) returns (r: Option<PasswordRecord>)
      requires Valid()
      modifies storage`fault
      ensures Valid()
      ensures r == if guid in db then Some(db[guid]) else None
    {
      var text := storage.Get(guid);
      match text
      case Err(_) => return None;
      case Ok(t) =>
        match codec.fromVec(t)
        case Ok(record) => return Some(record);
        case Err(_) => return None;
    }

    /** `menu_addnew` and the tail of `add_password`: store, overwriting, then cache. The second takes
        its description from a scanned code and its username from a field without validator. */
    method Add(r: PasswordRecord, now: nat)
      requires Valid() && InAgreement() && r.(ctime := now).InRange()
      modifies this, view, storage
      ensures Valid()
      ensures var added := r.(ctime := now);
              && db == AddAs(hash, old(db), added, codec.ReadBack(added))
              && (InAgreement() <==>
                  KeyFits(hash, view.lower, old(db), added) && Settles(hash, added, codec.ReadBack(added)))
      ensures Lists(view.Contents(), view.lower, hash(r.description + r.username), r.description, r.atime, r.count)
      ensures old(InSync()) && InAgreement() ==> InSync()
    {
      var record := r.(ctime := now);
      ghost var back := codec.ReadBack(record);
      AddKeepsCoherenceIff(hash, view.lower, db, view.Contents(), record, back);
      if Settles(hash, record, back) && InSync() {
        AddKeepsSync(hash, view.lower, db, view.Contents(), record, back.value);
      }
      var key := StorageKey(hash, record);
      MirrorsPut(codec, storage.dict, db, hash, record);
      var _ := storage.PddbStore(key, codec.toText(record), true, true);
      db := AddAs(hash, db, record, back);
      var _ := view.InsertUnique(ItemOf(view.lower, key, record));
    }

    /** `menu_delete`, once approved. */
    method MenuDelete(guid: string)
      requires Valid() && InAgreement()
      modifies this, view, storage
      ensures Valid() && InAgreement() && db == old(db) - {guid}
      ensures old(InSync()) ==> InSync()
    {
      var maybe := GetRecord(guid);
      if maybe.None? {
        return;
      }
      RemoveKeepsCoherence(hash, view.lower, db, view.Contents(), guid);
      var removed := view.Remove(KeyFromParts(view.lower, maybe.value.description, guid));
      assert removed.Some?;
      Drop(guid);
    }

    /** Deletes the stored text. */
    method Drop(guid: string)
      requires Valid()
      modifies this, storage
      ensures Valid() && db == old(db) - {guid}
    {
      MirrorsDrop(codec, storage.dict, db, guid);
      var _ := storage.Delete(guid);
      db := db - {guid};
    }

    /** `Manager::update` of a stored record: it moves to the key of its new contents. */
    method Update(guid: string, r: PasswordRecord)
      requires Valid() && guid in db && Storable(r)
      modifies this, storage
      ensures Valid() && db == AddToDb(hash, old(db) - {guid}, r)
    {
      var key := StorageKey(hash, r);
      MirrorsDrop(codec, storage.dict, db, guid);
      MirrorsPut(codec, storage.dict - {guid}, db - {guid}, hash, r);
      var updated := storage.Update(guid, key, codec.toText(r));
      assert updated.Ok?;
      db := (db - {guid})[key := r];
    }

    /** `menu_edit`: the entry leaves the cache, the record moves to the key of its new contents,
        and the entry returns under that key. */
    method MenuEdit(guid: string, form: Form, now: nat)
      requires Valid() && InAgreement() && form.Valid() && now < U64_LIMIT
      requires guid in db ==> db[guid].count + 1 < U64_LIMIT
      modifies this, view, storage
      ensures Valid()
      ensures guid !in old(db) ==> db == old(db) && InAgreement()
      ensures guid in old(db) ==>
        var edited := Edited(old(db)[guid], form, now);
        && db == AddToDb(hash, old(db) - {guid}, edited)
        && (InAgreement() <==> KeyFits(hash, view.lower, old(db) - {guid}, edited))
      ensures guid in old(db) ==>
        var key := hash(form.description + form.username);
        && EditMoved(old(db), db, guid, key, form, now)
        && Lists(view.Contents(), view.lower, key, form.description, now, old(db)[guid].count + 1)
      ensures old(InSync()) ==> InSync()
    {
      var maybe := GetRecord(guid);
      if maybe.None? {
        return;
      }
      var pw := maybe.value;
      EditKeepsCoherenceIff(hash, view.lower, db, view.Contents(), guid, Edited(pw, form, now));
      EditMoves(hash, db, guid, form, now);
      var removed := view.Remove(KeyFromParts(view.lower, pw.description, guid));
      assert removed.Some?;
      pw := Edited(pw, form, now);
      Update(guid, pw);
      var _ := view.InsertUnique(ItemOf(view.lower, StorageKey(hash, pw), pw));
    }

    /** `update_db_entry`: one record read back into the cache. A record that moved away is reported,
        nothing more; one that is there is in the cache already. */
    method UpdateDbEntry(guid: string)
      requires Valid() && (guid in db ==> InAgreement())
      modifies this, view, storage`fault
      ensures Valid() && db == old(db)
      ensures InAgreement() <==> old(InAgreement())
      ensures guid in db ==>
        var k := CacheKey(view.lower, db, guid);
        && view.Contents() == old(view.Contents())[k := ItemOf(view.lower, guid, db[guid])]
      ensures guid !in db ==> view.Contents() == old(view.Contents())
    {
      var maybe := GetRecord(guid);
      if maybe.None? {
        return;
      }
      AddKeepsCoherenceIff(hash, view.lower, db, view.Contents(), maybe.value, maybe);
      assert AddAs(hash, db, maybe.value, maybe) == db;
      var previous := view.InsertUnique(ItemOf(view.lower, guid, maybe.value));
      assert previous.Some?;
    }

    /** `increment_pw_usage`: the store only; the cache learns of it at the next reload. */
    method IncrementUsage(guid: string, now: nat)
      requires Valid() && InAgreement() && guid in db && db[guid].count + 1 < U64_LIMIT && now < U64_LIMIT
      modifies this, storage
      ensures Valid() && InAgreement()
      ensures db == old(db)[guid := Used(old(db)[guid], now).(ctime := now)]
      ensures IsUseOf(db[guid], old(db)[guid], now, now)
    {
      var maybe := GetRecord(guid);
      var pw := Used(maybe.value, now).(ctime := now);
      UseKeepsCoherence(hash, view.lower, db, view.Contents(), guid, pw);
      Update(guid, pw);
    }

    /** `handle_autotype`: re-read, count the use, replace the stored text under the same key. */
    method Autotype(guid: string, now: nat)
      requires Valid() && InAgreement() && (guid in db ==> db[guid].count + 1 < U64_LIMIT) && now < U64_LIMIT
      modifies this, storage
      ensures Valid() && InAgreement()
      ensures db == if guid in old(db) then old(db)[guid := Used(old(db)[guid], now)] else old(db)
      ensures guid in old(db) ==> IsUseOf(db[guid], old(db)[guid], now, old(db)[guid].ctime)
    {
      var text := storage.Get(guid);
      if text.Err? {
        return;
      }
      match codec.tryFrom(text.value)
      case Err(_) => return;
      case Ok(pw) =>
        var used := Used(pw, now);
        UseKeepsCoherence(hash, view.lower, db, view.Contents(), guid, used);
        Replace(guid, used);
    }

    /** Deletes a record and stores its successor under the same key. */
    method Replace(guid: string, r: PasswordRecord)
      requires Valid() && guid in db && Storable(r) && StorageKey(hash, r) == guid
      modifies this, storage
      ensures Valid() && db == old(db)[guid := r]
    {
      assert (db - {guid})[guid := r] == db[guid := r];
      Drop(guid);
      MirrorsPut(codec, storage.dict, db, hash, r);
      var _ := storage.PddbStore(guid, codec.toText(r), true, true);
      db := db[guid := r];
    }

    /** One record of the reload loop of `retrieve_db`. */
    method CacheOne(name: string, r: PasswordRecord) returns (ghost item: ListItem)
      requires view.Valid()
      modifies view
      ensures view.Valid() && Shows(item, r)
      ensures view.Contents() == old(view.Contents())[KeyFromParts(view.lower, r.description, name) := item]
    {
      var key := KeyFromParts(view.lower, r.description, name);
      var found := view.Get(key);
      if found.Some? {
        var entry := view.list[found.value];
        if entry.name != r.description {
          // name_clear, then name_push_str
          entry := entry.(name := "", sortableName := "");
          entry := entry.(
            name := entry.name + r.description,
            sortableName := entry.sortableName + view.lower(r.description));
          assert "" + r.description == r.description && "" + view.lower(r.description) == view.lower(r.description);
        }
        if entry.guid != name {
          entry := entry.(guid := name);
        }
        entry := entry.(atime := r.atime, count := r.count);
        item := entry;
        view.Put(found.value, entry);
      } else {
        var entry := NewItem(view.lower, r.description, "", name, r.atime, r.count);
        item := entry;
        view.Push(entry);
      }
    }

    /** `retrieve_db` in password mode. The records may come in any order. Entries of the cache that
        no longer have a record are not removed, so the result agrees with the store exactly when
        there were none and every record reads as one that belongs under its key. */
    method RetrieveDb()
      requires Valid()
      modifies view
      ensures Valid() && InSync()
      ensures view.Contents().Keys == old(view.Contents()).Keys + CacheKeys(view.lower, db)
      ensures InAgreement() <==> DbConsistent(hash, db) && old(view.Contents()).Keys <= CacheKeys(view.lower, db)
      ensures view.filterRange == Some((0, |view.list|))
    {
      ghost var before := view.Contents().Keys;
      var todo := storage.dict.Keys;
      while todo != {}
        invariant Valid() && todo <= storage.dict.Keys
        invariant Reloaded(view.lower, db, before, db.Keys - todo, view.Contents())
        decreases todo
      {
        var name :| name in todo;
        match codec.fromVec(storage.dict[name]) {
          case Ok(record) =>
            ghost var cache := view.Contents();
            ghost var item := CacheOne(name, record);
            ReloadedOneMore(view.lower, db, before, db.Keys - todo, cache, name, item);
            assert db.Keys - (todo - {name}) == (db.Keys - todo) + {name};
          case Err(_) =>
            assert db.Keys - (todo - {name}) == db.Keys - todo;
        }
        todo := todo - {name};
      }
      assert db.Keys - todo == db.Keys;
      CompleteCacheCoherentIff(hash, view.lower, db, view.Contents(), before);
      view.FilterReset();
    }
  }
}
