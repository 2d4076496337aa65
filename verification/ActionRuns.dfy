/** Whole runs of password actions, dispatched as `src/action_handler.rs` does. */
module ActionRuns {
  import opened ItemCache
  import opened Records
  import opened Coherence
  import opened Actions

  datatype Action =
    | AddNew(record: PasswordRecord, now: nat)
    | Delete(guid: string)
    | Edit(guid: string, form: Form, now: nat)
    | Autotype(guid: string, now: nat)
    | IncrementUsage(guid: string, now: nat)
    | UpdateOneItem(guid: string)
    | Reload

  /** What an action does to the records alone. */
  ghost function DbStep(codec: Codec, hash: Hasher, db: Database, a: Action): Database {
    match a
    case AddNew(r, now) => AddAs(hash, db, r.(ctime := now), codec.ReadBack(r.(ctime := now)))
    case Delete(guid) => db - {guid}
    case Edit(guid, form, now) =>
      if guid in db then AddToDb(hash, db - {guid}, Edited(db[guid], form, now)) else db
    case Autotype(guid, now) => if guid in db then db[guid := Used(db[guid], now)] else db
    case IncrementUsage(guid, now) => if guid in db then db[guid := Used(db[guid], now).(ctime := now)] else db
    case UpdateOneItem(_) => db
    case Reload => db
  }

  ghost function DbRun(codec: Codec, hash: Hasher, db: Database, actions: seq<Action>): Database {
    if actions == [] then db
    else DbStep(codec, hash, DbRun(codec, hash, db, actions[..|actions| - 1]), actions[|actions| - 1])
  }

  /** The numbers of an action, and those it leads to, are in range, and the text of an edit has passed the
      form. The text of an addition may be anything. */
  ghost predicate InBounds(db: Database, a: Action) {
    match a
    case AddNew(r, now) => r.(ctime := now).InRange()
    case Edit(guid, form, now) => form.Valid() && now < U64_LIMIT && (guid in db ==> db[guid].count + 1 < U64_LIMIT)
    case Autotype(guid, now) => now < U64_LIMIT && (guid in db ==> db[guid].count + 1 < U64_LIMIT)
    case IncrementUsage(guid, now) => now < U64_LIMIT && guid in db && db[guid].count + 1 < U64_LIMIT
    case _ => true
  }

  /** Its record lands on a key that fits and, if it is a new one, settles. */
  ghost predicate Fits(codec: Codec, hash: Hasher, lower: Lower, db: Database, a: Action) {
    match a
    case AddNew(r, now) =>
      var added := r.(ctime := now);
      KeyFits(hash, lower, db, added) && Settles(hash, added, codec.ReadBack(added))
    case Edit(guid, form, now) => guid in db ==> KeyFits(hash, lower, db - {guid}, Edited(db[guid], form, now))
    case _ => true
  }

  /** From a state in agreement, an action leaves one in agreement exactly if it fits. */
  method Perform(m: ActionManager, a: Action)
    requires m.Valid() && m.InAgreement() && InBounds(m.db, a)
    modifies m, m.view, m.storage
    ensures m.Valid() && m.db == DbStep(m.codec, m.hash, old(m.db), a)
    ensures m.InAgreement() <==> Fits(m.codec, m.hash, m.view.lower, old(m.db), a)
    ensures a.Reload? || a.Delete? ==> m.InSync()
  {
    match a
    case AddNew(r, now) => m.Add(r, now);
    case Delete(guid) =>
      m.MenuDelete(guid);
      CoherentCacheHasNoStrays(m.hash, m.view.lower, m.db, m.view.Contents());
      m.RetrieveDb();
    case Edit(guid, form, now) => EditThenUpdate(m, guid, form, now);
    case Autotype(guid, now) => m.Autotype(guid, now);
    case IncrementUsage(guid, now) => m.IncrementUsage(guid, now);
    case UpdateOneItem(guid) => m.UpdateDbEntry(guid);
    case Reload =>
      CoherentCacheHasNoStrays(m.hash, m.view.lower, m.db, m.view.Contents());
      m.RetrieveDb();
  }

  method EditThenUpdate(m: ActionManager, guid: string, form: Form, now: nat)
    requires m.Valid() && m.InAgreement() && InBounds(m.db, Edit(guid, form, now))
    modifies m, m.view, m.storage
    ensures m.Valid() && m.db == DbStep(m.codec, m.hash, old(m.db), Edit(guid, form, now))
    ensures m.InAgreement() <==> Fits(m.codec, m.hash, m.view.lower, old(m.db), Edit(guid, form, now))
  {
    m.MenuEdit(guid, form, now);
    m.UpdateDbEntry(guid);
  }

  lemma CoherentCacheHasNoStrays(hash: Hasher, lower: Lower, db: Database, cache: Cache)
    requires Coherent(hash, lower, db, cache)
    ensures cache.Keys <= CacheKeys(lower, db)
  {
    forall k | k in cache ensures k in CacheKeys(lower, db) {
      assert k == CacheKey(lower, db, k.guid);
    }
  }

  /** Over every run of actions that fit, from any state in agreement, store and cache stay in agreement,
      no assert fires, and the records are those the actions ask for. */
  method Run(m: ActionManager, actions: seq<Action>)
    requires m.Valid() && m.InAgreement()
    requires forall i :: 0 <= i < |actions| ==>
      var db := DbRun(m.codec, m.hash, m.db, actions[..i]);
      InBounds(db, actions[i]) && Fits(m.codec, m.hash, m.view.lower, db, actions[i])
    modifies m, m.view, m.storage
    ensures m.Valid() && m.InAgreement() && m.db == DbRun(m.codec, m.hash, old(m.db), actions)
    ensures actions != [] && actions[|actions| - 1].Reload? ==> m.InSync()
  {
    for i := 0 to |actions|
      invariant m.Valid() && m.InAgreement() && m.db == DbRun(m.codec, m.hash, old(m.db), actions[..i])
      invariant i > 0 && actions[i - 1].Reload? ==> m.InSync()
    {
      assert actions[..i + 1][..i] == actions[..i];
      Perform(m, actions[i]);
    }
    assert actions[..|actions|] == actions;
  }
}
