/** One dictionary of the record store (`Manager` in `src/storage.rs`): a map from storage key to
    record text, in which a write replaces the value. Every call to the database may fail, by plan: so
    many succeed, and the next one does not. */
module Storage {
  import opened Wrappers

  datatype StoreError = KeyExists | NotFound | DupesExist(positions: seq<nat>) | IoError | Panicked

  type Entries = seq<(string, string)>

  type Dict = map<string, string>

  // ----- calls that may fail

  /** The dictionary, and how many calls succeed before one fails, if one is to fail. */
  datatype Db = Db(dict: Dict, fault: Option<nat>) {
    predicate Fails() { fault == Some(0) }

    function Called(): Db {
      this.(fault := match fault
        case None => None
        case Some(n) => if n == 0 then None else Some(n - 1))
    }
  }

  /** The key is created if need be, then written, then perhaps flushed; a failure to flush is ignored,
      a failure to write leaves the key created. */
  function Write(db: Db, key: string, payload: string, sync: bool): (Db, Result<(), StoreError>) {
    if db.Fails() then (db.Called(), Err(IoError))
    else
      var created := db.Called().(dict := if key in db.dict then db.dict else db.dict[key := ""]);
      if created.Fails() then (created.Called(), Err(IoError))
      else
        var written := created.Called().(dict := created.dict[key := payload]);
        (if sync then written.Called() else written, Ok(()))
  }

  /** `pddb_store`: a lookup that fails counts as a key that is not there. */
  function Store(db: Db, key: string, payload: string, sync: bool, overwrite: bool): (Db, Result<(), StoreError>) {
    if overwrite then Write(db, key, payload, sync)
    else if !db.Fails() && key in db.dict then (db.Called(), Err(KeyExists))
    else Write(db.Called(), key, payload, sync)
  }

  /** The basis of a key, without which nothing is deleted; its attributes are unwrapped. */
  function Basis(db: Db, key: string): (Db, Result<(), StoreError>) {
    if db.Fails() then (db.Called(), Err(IoError))
    else if key !in db.dict then (db.Called(), Err(NotFound))
    else if db.Called().Fails() then (db.Called().Called(), Err(Panicked))
    else (db.Called().Called(), Ok(()))
  }

  function Deleted(db: Db, key: string): (Db, Result<(), StoreError>) {
    var (found, basis) := Basis(db, key);
    if basis.Err? then (found, basis)
    else if found.Fails() then (found.Called(), Err(IoError))
    else (found.Called().(dict := found.dict - {key}), Ok(()))
  }

  /** `update`: the old key goes, the record is stored under the key it has now. */
  function Updated(db: Db, key: string, newKey: string, payload: string): (Db, Result<(), StoreError>) {
    var (gone, deleted) := Deleted(db, key);
    if deleted.Err? then (gone, deleted) else Write(gone, newKey, payload, true)
  }

  /** The record has its old text under its old key, or its new text under its new key. */
  predicate StillThere(before: Dict, after: Dict, key: string, newKey: string, payload: string)
    requires key in before
  {
    (key in after && after[key] == before[key]) || (newKey in after && after[newKey] == payload)
  }

  /** An update loses the record exactly if the call that creates its new key fails, or the write after
      it: the old text is gone by then. */
  lemma UpdateLosesIff(db: Db, key: string, newKey: string, payload: string)
    requires key in db.dict && db.dict[key] != "" && payload != ""
    requires newKey != key && newKey in db.dict ==> db.dict[newKey] != payload
    ensures var (after, r) := Updated(db, key, newKey, payload);
            && (StillThere(db.dict, after.dict, key, newKey, payload) <==> db.fault !in {Some(3), Some(4)})
            && (r.Ok? <==> db.fault.None? || db.fault.value > 4)
  {
  }

  /** Storing a batch entry by entry: the dictionary left behind and the positions refused. */
  ghost function Batch(dict: map<string, string>, entries: Entries, overwrite: bool): (map<string, string>, seq<nat>) {
    if entries == [] then (dict, [])
    else
      var last := |entries| - 1;
      var (done, dupes) := Batch(dict, entries[..last], overwrite);
      if !overwrite && entries[last].0 in done then (done, dupes + [last])
      else (done[entries[last].0 := entries[last].1], dupes)
  }

  /** Position `i` asks for a key that was stored before the batch or earlier in it. */
  ghost predicate Duplicate(dict: map<string, string>, entries: Entries, i: nat)
    requires i < |entries|
  {
    entries[i].0 in dict || exists j :: 0 <= j < i && entries[j].0 == entries[i].0
  }

  ghost predicate Increasing(s: seq<nat>) {
    forall a, b :: 0 <= a < b < |s| ==> s[a] < s[b]
  }

  lemma {:induction false} BatchKeys(dict: map<string, string>, entries: Entries, overwrite: bool)
    ensures forall k :: k in Batch(dict, entries, overwrite).0 <==>
      k in dict || exists i :: 0 <= i < |entries| && entries[i].0 == k
  {
    if entries != [] {
      var last := |entries| - 1;
      BatchKeys(dict, entries[..last], overwrite);
      forall k
        ensures k in Batch(dict, entries, overwrite).0 <==>
          k in dict || exists i :: 0 <= i < |entries| && entries[i].0 == k
      {
        if k in Batch(dict, entries[..last], overwrite).0 && k !in dict {
          var i :| 0 <= i < last && entries[..last][i].0 == k;
          assert entries[i].0 == k;
        }
        if i :| 0 <= i < |entries| && entries[i].0 == k {
          if i < last { assert entries[..last][i].0 == k; }
        }
      }
    }
  }

  lemma {:induction false} BatchReportsInOrder(dict: map<string, string>, entries: Entries)
    ensures var dupes := Batch(dict, entries, false).1;
            Increasing(dupes) && forall a :: 0 <= a < |dupes| ==> dupes[a] < |entries|
  {
    if entries != [] {
      BatchReportsInOrder(dict, entries[..|entries| - 1]);
    }
  }

  lemma DuplicateInFront(dict: map<string, string>, entries: Entries, n: nat, i: nat)
    requires i < n <= |entries|
    ensures Duplicate(dict, entries[..n], i) <==> Duplicate(dict, entries, i)
  {
    if j :| 0 <= j < i && entries[j].0 == entries[i].0 {
      assert entries[..n][j].0 == entries[..n][i].0;
    }
  }

  lemma LastIsDuplicate(dict: map<string, string>, entries: Entries)
    requires entries != []
    ensures var last := |entries| - 1;
            entries[last].0 in Batch(dict, entries[..last], false).0 <==> Duplicate(dict, entries, last)
  {
    var last := |entries| - 1;
    BatchKeys(dict, entries[..last], false);
    if j :| 0 <= j < last && entries[j].0 == entries[last].0 {
      assert entries[..last][j].0 == entries[last].0;
    }
    if j :| 0 <= j < last && entries[..last][j].0 == entries[last].0 {
      assert entries[j].0 == entries[last].0;
    }
  }

  /** Without overwriting, exactly the duplicate positions are reported. */
  lemma {:induction false} BatchReportsDuplicates(dict: map<string, string>, entries: Entries, i: nat)
    requires i < |entries|
    ensures i in Batch(dict, entries, false).1 <==> Duplicate(dict, entries, i)
  {
    var last := |entries| - 1;
    LastIsDuplicate(dict, entries);
    BatchReportsInOrder(dict, entries[..last]);
    if i < last {
      BatchReportsDuplicates(dict, entries[..last], i);
      DuplicateInFront(dict, entries, last, i);
    } else {
      assert i !in Batch(dict, entries[..last], false).1;
    }
  }

  /** Without overwriting, nothing stored before is touched, and every position not reported is stored. */
  lemma {:induction false} BatchStoresTheRest(dict: map<string, string>, entries: Entries)
    ensures var done := Batch(dict, entries, false).0;
            && (forall k :: k in dict ==> k in done && done[k] == dict[k])
            && (forall i: nat :: i < |entries| && !Duplicate(dict, entries, i) ==>
                  entries[i].0 in done && done[entries[i].0] == entries[i].1)
  {
    if entries != [] {
      var last := |entries| - 1;
      BatchStoresTheRest(dict, entries[..last]);
      LastIsDuplicate(dict, entries);
      var done := Batch(dict, entries, false).0;
      forall i: nat | i < |entries| && !Duplicate(dict, entries, i)
        ensures entries[i].0 in done && done[entries[i].0] == entries[i].1
      {
        if i < last {
          DuplicateInFront(dict, entries, last, i);
          assert entries[..last][i] == entries[i];
        }
      }
    }
  }

  /** No later entry is for the same key. */
  ghost predicate LastForKey(entries: Entries, i: nat)
    requires i < |entries|
  {
    forall j :: i < j < |entries| ==> entries[j].0 != entries[i].0
  }

  /** With overwriting nothing is refused and the last entry for a key is the one that stays. */
  lemma {:induction false} BatchWithOverwrite(dict: Dict, entries: Entries, i: nat)
    requires i < |entries| && LastForKey(entries, i)
    ensures var (done, dupes) := Batch(dict, entries, true);
            dupes == [] && entries[i].0 in done && done[entries[i].0] == entries[i].1
  {
    var last := |entries| - 1;
    NothingRefused(dict, entries[..last]);
    if i < last {
      BatchWithOverwrite(dict, entries[..last], i);
    }
  }

  lemma {:induction false} NothingRefused(dict: Dict, entries: Entries)
    ensures Batch(dict, entries, true).1 == []
  {
    if entries != [] {
      NothingRefused(dict, entries[..|entries| - 1]);
    }
  }

  // ----- a batch in which a call fails

  /** The first `k` entries of a batch, up to an error other than a key that exists; every tenth one and
      the last are flushed. */
  function StoreFirst(db: Db, entries: Entries, k: nat, overwrite: bool): (Db, Result<seq<nat>, StoreError>)
    requires k <= |entries|
  {
    if k == 0 then (db, Ok([]))
    else
      var (done, dupes) := StoreFirst(db, entries, k - 1, overwrite);
      if dupes.Err? then (done, dupes) else StoreNext(done, entries, k - 1, dupes.value, overwrite)
  }

  function StoreNext(db: Db, entries: Entries, i: nat, dupes: seq<nat>, overwrite: bool)
    : (Db, Result<seq<nat>, StoreError>)
    requires i < |entries|
  {
    var (next, r) := Store(db, entries[i].0, entries[i].1, i == |entries| - 1 || i % 10 == 0, overwrite);
    match r
    case Ok(_) => (next, Ok(dupes))
    case Err(e) => (next, if e == KeyExists then Ok(dupes + [i]) else Err(e))
  }

  lemma StoreWithoutFault(dict: Dict, key: string, payload: string, sync: bool, overwrite: bool)
    ensures Store(Db(dict, None), key, payload, sync, overwrite)
         == if !overwrite && key in dict then (Db(dict, None), Err(KeyExists))
            else (Db(dict[key := payload], None), Ok(()))
  {
    assert dict[key := ""][key := payload] == dict[key := payload];
  }

  /** If no call fails, that is the batch. */
  lemma {:induction false} WithoutFaults(dict: Dict, entries: Entries, k: nat, overwrite: bool)
    requires k <= |entries|
    ensures var (done, dupes) := Batch(dict, entries[..k], overwrite);
            StoreFirst(Db(dict, None), entries, k, overwrite) == (Db(done, None), Ok(dupes))
  {
    if k > 0 {
      WithoutFaults(dict, entries, k - 1, overwrite);
      assert entries[..k][..k - 1] == entries[..k - 1] && entries[..k][k - 1] == entries[k - 1];
      var done := Batch(dict, entries[..k - 1], overwrite).0;
      StoreWithoutFault(done, entries[k - 1].0, entries[k - 1].1, k == |entries| || (k - 1) % 10 == 0, overwrite);
    } else {
      assert entries[..0] == [];
    }
  }

  ghost predicate Kept(before: Dict, after: Dict) {
    forall g :: g in before ==> g in after && after[g] == before[g]
  }

  /** The lookup of entry `i` fails, and the key is that of a record with another text. */
  ghost predicate Overlooks(db: Db, entries: Entries, i: nat)
    requires i < |entries|
  {
    var (done, dupes) := StoreFirst(db, entries, i, false);
    dupes.Ok? && done.Fails() && entries[i].0 in db.dict && entries[i].1 != db.dict[entries[i].0]
  }

  lemma StoreKeepsIff(db: Db, key: string, payload: string, sync: bool, before: Dict)
    requires Kept(before, db.dict)
    ensures var after := Store(db, key, payload, sync, false).0;
            && (Kept(before, after.dict) <==> !(db.Fails() && key in before && before[key] != payload))
            && (!Kept(before, after.dict) ==> after.fault.None?)
  {
  }

  /** The plan has one failure, so what one lookup lost the next cannot bring back. */
  lemma StaysLost(db: Db, key: string, payload: string, sync: bool, before: Dict)
    requires db.fault.None? && !Kept(before, db.dict) && before.Keys <= db.dict.Keys
    ensures var after := Store(db, key, payload, sync, false).0; !Kept(before, after.dict) && after.fault.None?
  {
  }

  lemma {:induction false} DictGrows(db: Db, entries: Entries, k: nat, overwrite: bool)
    requires k <= |entries|
    ensures db.dict.Keys <= StoreFirst(db, entries, k, overwrite).0.dict.Keys
  {
    if k > 0 {
      DictGrows(db, entries, k - 1, overwrite);
      var (done, dupes) := StoreFirst(db, entries, k - 1, overwrite);
      if dupes.Ok? {
        StoreGrows(done, entries[k - 1].0, entries[k - 1].1, k == |entries| || (k - 1) % 10 == 0, overwrite);
      }
    }
  }

  lemma StoreGrows(db: Db, key: string, payload: string, sync: bool, overwrite: bool)
    ensures db.dict.Keys <= Store(db, key, payload, sync, overwrite).0.dict.Keys
  {
  }

  ghost predicate SomeOverlooked(db: Db, entries: Entries, k: nat)
    requires k <= |entries|
  {
    exists i: nat :: i < k && Overlooks(db, entries, i)
  }

  lemma OneMoreOverlooked(db: Db, entries: Entries, k: nat)
    requires 0 < k <= |entries|
    ensures SomeOverlooked(db, entries, k) <==> SomeOverlooked(db, entries, k - 1) || Overlooks(db, entries, k - 1)
  {
  }

  /** Storing without overwriting keeps every record that was there, whichever call fails, exactly if the
      failing call is not the lookup of a key that was there with another text. */
  lemma {:induction false} StoringKeepsOldIff(db: Db, entries: Entries, k: nat)
    requires k <= |entries|
    ensures var after := StoreFirst(db, entries, k, false).0;
            && (Kept(db.dict, after.dict) <==> !SomeOverlooked(db, entries, k))
            && (!Kept(db.dict, after.dict) ==> after.fault.None?)
  {
    if k > 0 {
      StoringKeepsOldIff(db, entries, k - 1);
      OneMoreOverlooked(db, entries, k);
      DictGrows(db, entries, k - 1, false);
      var (done, dupes) := StoreFirst(db, entries, k - 1, false);
      if dupes.Ok? {
        var sync := k == |entries| || (k - 1) % 10 == 0;
        if Kept(db.dict, done.dict) {
          StoreKeepsIff(done, entries[k - 1].0, entries[k - 1].1, sync, db.dict);
        } else {
          StaysLost(done, entries[k - 1].0, entries[k - 1].1, sync, db.dict);
        }
      }
    }
  }

  // ----- the manager

  class Manager {
    var dict: Dict
    var fault: Option<nat>

    ghost function State(): Db
      reads this
    {
      Db(dict, fault)
    }

    constructor ()
      ensures dict == map[] && fault == None
    {
      dict, fault := map[], None;
    }

    /** Any call to the database. */
    method Call() returns (ok: bool)
      modifies this`fault
      ensures ok == !old(State()).Fails() && State() == old(State()).Called()
    {
      ok := fault != Some(0);
      if fault.Some? {
        fault := if fault.value == 0 then None else Some(fault.value - 1);
      }
    }

    method PddbExists(key: string) returns (exists_: bool)
      modifies this`fault
      ensures exists_ == (!old(State()).Fails() && key in dict) && State() == old(State()).Called()
    {
      var ok := Call();
      exists_ := ok && key in dict;
    }

    method PddbStore(key: string, payload: string, sync: bool, overwrite: bool) returns (r: Result<(), StoreError>)
      modifies this
      ensures (State(), r) == Store(old(State()), key, payload, sync, overwrite)
      ensures old(fault).None? && (overwrite || key !in old(dict)) ==> r == Ok(()) && dict == old(dict)[key := payload]
      ensures old(fault).None? ==> fault.None?
    {
      if !overwrite {
        var known := PddbExists(key);
        if known {
          return Err(KeyExists);
        }
      }
      var reached := Call();
      if !reached {
        return Err(IoError);
      }
      if key !in dict {
        dict := dict[key := ""];
      }
      var written := Call();
      if !written {
        return Err(IoError);
      }
      dict := dict[key := payload];
      if sync {
        var _ := Call();
      }
      r := Ok(());
    }

    /** Opens a key, then reads it. */
    method Get(key: string) returns (r: Result<string, StoreError>)
      modifies this`fault
      ensures var found := if key in dict then Ok(dict[key]) else Err(NotFound);
              r == found || (r == Err(IoError) && old(fault).Some?)
      ensures old(fault).None? ==> fault.None?
    {
      var reached := Call();
      if !reached {
        return Err(IoError);
      }
      if key !in dict {
        return Err(NotFound);
      }
      var read := Call();
      r := if read then Ok(dict[key]) else Err(IoError);
    }

    method BasisForKey(key: string) returns (r: Result<(), StoreError>)
      modifies this`fault
      ensures (State(), r) == Basis(old(State()), key)
    {
      var reached := Call();
      if !reached {
        return Err(IoError);
      }
      if key !in dict {
        return Err(NotFound);
      }
      var attributes := Call();
      r := if attributes then Ok(()) else Err(Panicked);
    }

    method Update(key: string, newKey: string, payload: string) returns (r: Result<(), StoreError>)
      modifies this
      ensures (State(), r) == Updated(old(State()), key, newKey, payload)
      ensures old(fault).None? && key in old(dict) ==> r == Ok(()) && dict == (old(dict) - {key})[newKey := payload]
      ensures old(fault).None? ==> fault.None?
    {
      var _ :- Delete(key);
      r := PddbStore(newKey, payload, true, true);
    }

    method Delete(key: string) returns (r: Result<(), StoreError>)
      modifies this
      ensures (State(), r) == Deleted(old(State()), key)
      ensures old(fault).None? ==> dict == old(dict) - {key} && fault.None?
    {
      var _ :- BasisForKey(key);
      var deleted := Call();
      if !deleted {
        return Err(IoError);
      }
      dict := dict - {key};
      r := Ok(());
    }

    /** `new_records` */
    method NewRecords(entries: Entries, overwrite: bool) returns (r: Result<(), StoreError>)
      modifies this
      ensures var (done, dupes) := StoreFirst(old(State()), entries, |entries|, overwrite);
              && State() == done
              && r == match dupes {
                case Err(e) => Err(e)
                case Ok(positions) => if positions == [] then Ok(()) else Err(DupesExist(positions))
              }
    {
      var dupes: seq<nat> := [];
      for idx := 0 to |entries|
        invariant (State(), Ok(dupes)) == StoreFirst(old(State()), entries, idx, overwrite)
      {
        var shouldSync := idx == |entries| - 1 || idx % 10 == 0;
        var stored := PddbStore(entries[idx].0, entries[idx].1, shouldSync, overwrite);
        match stored
        case Ok(_) =>
        case Err(error) =>
          if error != KeyExists {
            StopsThere(old(State()), entries, idx + 1, overwrite);
            return Err(error);
          }
          dupes := dupes + [idx];
      }
      r := if dupes != [] then Err(DupesExist(dupes)) else Ok(());
    }
  }

  lemma {:induction false} StopsThere(db: Db, entries: Entries, k: nat, overwrite: bool)
    requires k <= |entries| && StoreFirst(db, entries, k, overwrite).1.Err?
    ensures StoreFirst(db, entries, |entries|, overwrite) == StoreFirst(db, entries, k, overwrite)
    decreases |entries| - k
  {
    if k < |entries| {
      StopsThere(db, entries, k + 1, overwrite);
    }
  }
}
