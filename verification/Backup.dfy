/** Backup and restore (`src/vendor_commands.rs:247-400`) at the level of entry lists: everything in a
    dictionary is read into entries, and entries are stored as new records that overwrite nothing. */
module Backup {
  import opened Wrappers
  import opened Records
  import opened RecordText
  import opened Storage
  import C = Coherence

  datatype PasswordEntry = PasswordEntry(description: string, username: string, password: string, notes: string)

  datatype HashAlgorithm = SHA1 | SHA256 | SHA512

  datatype TotpEntry = TotpEntry(
    stepSeconds: nat, sharedSecret: string, digitCount: nat, algorithm: HashAlgorithm, name: string, hotp: bool)

  datatype BackupError = Unreadable(error: ParseError) | Missing | InvalidAlgorithm | StoreFailed

  // ----- reading a dictionary, over any kind of record

  /** The text of a record and the key it is stored under. */
  datatype Kind<!R> = Kind(read: string -> Result<R, ParseError>, write: R -> string, key: R -> string)

  const RESTORED_VERSION := 1

  function PasswordKind(hash: C.Hasher): Kind<PasswordRecord> {
    Kind(
      text => ParsePassword(CLEARED_PASSWORD, Some(text)),
      PrintPassword,
      (r: PasswordRecord) => C.StorageKey(hash, r))
  }

  function TotpKind(hash: C.Hasher): Kind<TotpRecord> {
    Kind(text => ParseTotp(DEFAULT_TOTP, Some(text)), PrintTotp, (r: TotpRecord) => hash(r.name))
  }

  /** `all`: the records of the listed keys, in the order of the list. */
  function All<R>(kind: Kind<R>, dict: Dict, keys: seq<string>): Result<seq<R>, BackupError> {
    if keys == [] then Ok([])
    else
      match All(kind, dict, keys[..|keys| - 1])
      case Err(e) => Err(e)
      case Ok(rs) =>
        var key := keys[|keys| - 1];
        if key !in dict then Err(Missing)
        else
          match kind.read(dict[key])
          case Err(e) => Err(Unreadable(e))
          case Ok(r) => Ok(rs + [r])
  }

  /** What a method over a store returns, if not that a call to the store failed. */
  ghost predicate Genuine<T>(m: Db, r: Result<T, BackupError>, expected: Result<T, BackupError>) {
    r == expected || (m.fault.Some? && r == Err(StoreFailed))
  }

  method ReadAll<R>(kind: Kind<R>, m: Manager, keylist: seq<string>) returns (r: Result<seq<R>, BackupError>)
    modifies m`fault
    ensures Genuine(old(m.State()), r, All(kind, m.dict, keylist))
  {
    var records := [];
    for i := 0 to |keylist|
      invariant All(kind, m.dict, keylist[..i]) == Ok(records)
      invariant old(m.fault).None? ==> m.fault.None?
    {
      assert keylist[..i + 1][..i] == keylist[..i];
      var data := m.Get(keylist[i]);
      if data == Err(IoError) {
        return Err(StoreFailed);
      }
      if data.Err? {
        AllFails(kind, m.dict, keylist, i + 1);
        return Err(Missing);
      }
      var record := kind.read(data.value);
      if record.Err? {
        AllFails(kind, m.dict, keylist, i + 1);
        return Err(Unreadable(record.error));
      }
      records := records + [record.value];
    }
    assert keylist[..|keylist|] == keylist;
    r := Ok(records);
  }

  /** The first failure is the outcome. */
  lemma {:induction false} AllFails<R>(kind: Kind<R>, dict: Dict, keys: seq<string>, n: nat)
    requires n <= |keys| && All(kind, dict, keys[..n]).Err?
    ensures All(kind, dict, keys) == All(kind, dict, keys[..n])
    decreases |keys|
  {
    if n == |keys| {
      assert keys[..n] == keys;
    } else {
      var front := keys[..|keys| - 1];
      assert front[..n] == keys[..n];
      AllFails(kind, dict, front, n);
    }
  }

  lemma {:induction false} AllReads<R>(kind: Kind<R>, dict: Dict, keys: seq<string>)
    requires forall k :: k in keys ==> k in dict && kind.read(dict[k]).Ok?
    ensures var rs := All(kind, dict, keys);
            && rs.Ok? && |rs.value| == |keys|
            && forall i :: 0 <= i < |keys| ==> kind.read(dict[keys[i]]) == Ok(rs.value[i])
  {
    if keys != [] {
      var front := keys[..|keys| - 1];
      assert forall k :: k in front ==> k in keys;
      AllReads(kind, dict, front);
      assert keys[|keys| - 1] in keys;
      assert forall i :: 0 <= i < |front| ==> front[i] == keys[i];
    }
  }

  // ----- storing records into an empty vault, over any kind of record

  /** Every text reads as a record, stored under its own key. */
  ghost predicate Consistent<R>(kind: Kind<R>, dict: Dict) {
    forall k :: k in dict ==> kind.read(dict[k]).Ok? && kind.key(kind.read(dict[k]).value) == k
  }

  /** The keys of a dictionary in some order. */
  ghost predicate Lists(keys: seq<string>, dict: Dict) {
    && (forall k :: k in keys <==> k in dict)
    && (forall i, j :: 0 <= i < j < |keys| ==> keys[i] != keys[j])
  }

  function StoredAs<R>(kind: Kind<R>, r: R): (string, string) { (kind.key(r), kind.write(r)) }

  function Stored<R>(kind: Kind<R>, records: seq<R>): (e: Entries)
    ensures |e| == |records|
    ensures forall i :: 0 <= i < |e| ==> e[i] == StoredAs(kind, records[i])
  {
    seq(|records|, i requires 0 <= i < |records| => StoredAs(kind, records[i]))
  }

  lemma StoringKeepsAll<R>(kind: Kind<R>, keys: seq<string>, records: seq<R>)
    requires |records| == |keys| && forall i, j :: 0 <= i < j < |keys| ==> keys[i] != keys[j]
    requires forall i :: 0 <= i < |keys| ==> kind.key(records[i]) == keys[i]
    ensures var (restored, dupes) := Batch(map[], Stored(kind, records), false);
            && dupes == []
            && (forall k :: k in restored <==> k in keys)
            && (forall i :: 0 <= i < |keys| ==> restored[keys[i]] == kind.write(records[i]))
  {
    var entries := Stored(kind, records);
    var (restored, dupes) := Batch(map[], entries, false);
    forall i | 0 <= i < |entries| ensures !Duplicate(map[], entries, i) {
    }
    NothingReported(entries);
    BatchStoresTheRest(map[], entries);
    BatchKeys(map[], entries, false);
    forall k ensures k in restored <==> k in keys {
      if i :| 0 <= i < |keys| && keys[i] == k {
        assert entries[i].0 == k;
      }
    }
    forall i | 0 <= i < |keys| ensures restored[keys[i]] == kind.write(records[i]) {
      assert !Duplicate(map[], entries, i);
    }
  }

  /** Both dictionaries have a record under the key, and the two look the same. */
  ghost predicate Same<R, T>(kind: Kind<R>, look: R -> T, a: Dict, b: Dict, k: string) {
    && k in a && k in b && kind.read(a[k]).Ok? && kind.read(b[k]).Ok?
    && look(kind.read(a[k]).value) == look(kind.read(b[k]).value)
  }

  /** Stored into an empty vault, the records give the same keys, with records that look the same, and
      nothing is reported as a duplicate. */
  ghost predicate Keeps<R, T>(kind: Kind<R>, look: R -> T, dict: Dict, records: seq<R>) {
    var (restored, dupes) := Batch(map[], Stored(kind, records), false);
    dupes == [] && restored.Keys == dict.Keys && forall k :: k in dict ==> Same(kind, look, restored, dict, k)
  }

  lemma StoringKeeps<R, T>(kind: Kind<R>, look: R -> T, dict: Dict, keys: seq<string>, rs: seq<R>, back: seq<R>)
    requires Lists(keys, dict) && |keys| == |rs| == |back|
    requires forall i :: 0 <= i < |keys| ==> keys[i] in dict && kind.read(dict[keys[i]]) == Ok(rs[i])
    requires forall i :: 0 <= i < |keys| ==> Survives(kind, look, keys[i], rs[i], back[i])
    ensures Keeps(kind, look, dict, back)
  {
    StoringKeepsAll(kind, keys, back);
    var restored := Batch(map[], Stored(kind, back), false).0;
    forall k | k in dict ensures Same(kind, look, restored, dict, k) {
      var i :| 0 <= i < |keys| && keys[i] == k;
      assert Survives(kind, look, keys[i], rs[i], back[i]);
    }
  }

  /** What is stored again goes under the same key, reads back, and looks the same. */
  ghost predicate Survives<R, T>(kind: Kind<R>, look: R -> T, key: string, r: R, back: R) {
    kind.key(back) == key && kind.read(kind.write(back)) == Ok(back) && look(back) == look(r)
  }

  lemma NothingReported(entries: Entries)
    requires forall i :: 0 <= i < |entries| ==> !Duplicate(map[], entries, i)
    ensures Batch(map[], entries, false).1 == []
  {
    var dupes := Batch(map[], entries, false).1;
    BatchReportsInOrder(map[], entries);
    if dupes != [] {
      BatchReportsDuplicates(map[], entries, dupes[0]);
    }
  }

  /** The times at which a restore stores its entries. */
  type Clock = t: seq<nat> | forall i :: 0 <= i < |t| ==> t[i] < U64_LIMIT

  // ----- passwords

  function EntryOfPassword(r: PasswordRecord): PasswordEntry {
    PasswordEntry(r.description, r.username, r.password, r.notes)
  }

  function RestoredPassword(e: PasswordEntry, now: nat): PasswordRecord {
    PasswordRecord(RESTORED_VERSION, e.description, e.username, e.password, e.notes, now, 0, 0)
  }

  function PasswordEntries(rs: seq<PasswordRecord>): (es: seq<PasswordEntry>)
    ensures |es| == |rs| && forall i :: 0 <= i < |es| ==>
      es[i] == PasswordEntry(rs[i].description, rs[i].username, rs[i].password, rs[i].notes)
  {
    seq(|rs|, i requires 0 <= i < |rs| => EntryOfPassword(rs[i]))
  }

  function RestoredPasswords(es: seq<PasswordEntry>, clock: Clock): (rs: seq<PasswordRecord>)
    requires |clock| == |es|
    ensures |rs| == |es| && forall i :: 0 <= i < |rs| ==>
      && rs[i].description == es[i].description && rs[i].username == es[i].username
      && rs[i].password == es[i].password && rs[i].notes == es[i].notes
      && rs[i].version == RESTORED_VERSION && rs[i].ctime == clock[i] && rs[i].atime == rs[i].count == 0
  {
    seq(|es|, i requires 0 <= i < |es| => RestoredPassword(es[i], clock[i]))
  }

  function PasswordBackup(hash: C.Hasher, dict: Dict, keys: seq<string>): Result<seq<PasswordEntry>, BackupError> {
    match All(PasswordKind(hash), dict, keys)
    case Ok(rs) => Ok(PasswordEntries(rs))
    case Err(e) => Err(e)
  }

  method BackupPasswords(hash: C.Hasher, m: Manager, keylist: seq<string>)
    returns (r: Result<seq<PasswordEntry>, BackupError>)
    modifies m`fault
    ensures Genuine(old(m.State()), r, PasswordBackup(hash, m.dict, keylist))
  {
    var records :- ReadAll(PasswordKind(hash), m, keylist);
    var entries := [];
    for i := 0 to |records|
      invariant entries == PasswordEntries(records)[..i]
    {
      entries := entries + [EntryOfPassword(records[i])];
    }
    assert PasswordEntries(records)[..|records|] == PasswordEntries(records);
    r := Ok(entries);
  }

  /** Storing a batch of new records, overwriting nothing. Keys that were there already do not count as an
      error: `handle_restore` only logs those. */
  function Restored(db: Db, entries: Entries): (Db, Result<(), StoreError>) {
    var (done, dupes) := StoreFirst(db, entries, |entries|, false);
    (done, if dupes.Err? then Err(dupes.error) else Ok(()))
  }

  /** The confirmation, whether or not some keys were there already. */
  method Confirm(m: Manager, entries: Entries) returns (r: Result<(), StoreError>)
    modifies m
    ensures (m.State(), r) == Restored(old(m.State()), entries)
  {
    r := m.NewRecords(entries, false);
    ErrorsAreNotDuplicates(old(m.State()), entries, |entries|);
    if r.Err? && r.error.DupesExist? {
      r := Ok(());
    }
  }

  lemma {:induction false} ErrorsAreNotDuplicates(db: Db, entries: Entries, k: nat)
    requires k <= |entries|
    ensures var r := StoreFirst(db, entries, k, false).1; r.Err? ==> !r.error.DupesExist?
  {
    if k > 0 {
      ErrorsAreNotDuplicates(db, entries, k - 1);
    }
  }

  method RestorePasswords(hash: C.Hasher, m: Manager, entries: seq<PasswordEntry>, clock: Clock)
    returns (r: Result<(), StoreError>)
    requires |clock| == |entries|
    modifies m
    ensures (m.State(), r) == Restored(old(m.State()), Stored(PasswordKind(hash), RestoredPasswords(entries, clock)))
  {
    var stored: Entries := [];
    for i := 0 to |entries|
      modifies {}
      invariant |stored| == i
      invariant forall j :: 0 <= j < i ==>
        stored[j] == StoredAs(PasswordKind(hash), RestoredPassword(entries[j], clock[j]))
    {
      var password := RestoredPassword(entries[i], clock[i]);
      stored := stored + [(C.StorageKey(hash, password), PrintPassword(password))];
    }
    assert stored == Stored(PasswordKind(hash), RestoredPasswords(entries, clock));
    r := Confirm(m, stored);
  }

  lemma PasswordReadsBack(text: string, now: nat)
    requires now < U64_LIMIT && ParsePassword(CLEARED_PASSWORD, Some(text)).Ok?
    ensures var r := RestoredPassword(EntryOfPassword(ParsePassword(CLEARED_PASSWORD, Some(text)).value), now);
            ParsePassword(CLEARED_PASSWORD, Some(PrintPassword(r))) == Ok(r)
  {
    PasswordLinesNewlineFree(CLEARED_PASSWORD, Split(text, '\n'));
    var r := RestoredPassword(EntryOfPassword(ParsePassword(CLEARED_PASSWORD, Some(text)).value), now);
    PasswordRoundTrip(r, CLEARED_PASSWORD);
  }

  /** What a restored password keeps. */
  function TextsOf(r: PasswordRecord): (string, string, string, string) {
    (r.description, r.username, r.password, r.notes)
  }

  lemma OnePasswordSurvives(hash: C.Hasher, text: string, r: PasswordRecord, now: nat)
    requires now < U64_LIMIT && PasswordKind(hash).read(text) == Ok(r)
    ensures var kind := PasswordKind(hash);
            Survives(kind, TextsOf, kind.key(r), r, RestoredPassword(EntryOfPassword(r), now))
  {
    PasswordReadsBack(text, now);
  }

  /** Backing up any consistent vault and restoring into an empty one keeps the key set and, under every
      key, description, username, password and notes; nothing is reported as a duplicate. */
  lemma PasswordsSurvive(hash: C.Hasher, dict: Dict, keys: seq<string>, clock: Clock)
    requires Consistent(PasswordKind(hash), dict) && Lists(keys, dict) && |clock| == |keys|
    ensures var backup := All(PasswordKind(hash), dict, keys);
            && backup.Ok? && |backup.value| == |keys|
            && Keeps(PasswordKind(hash), TextsOf, dict, RestoredPasswords(PasswordEntries(backup.value), clock))
  {
    var kind := PasswordKind(hash);
    AllReads(kind, dict, keys);
    var rs := All(kind, dict, keys).value;
    var back := RestoredPasswords(PasswordEntries(rs), clock);
    forall i | 0 <= i < |keys| ensures Survives(kind, TextsOf, keys[i], rs[i], back[i]) {
      OnePasswordSurvives(hash, dict[keys[i]], rs[i], clock[i]);
    }
    StoringKeeps(kind, TextsOf, dict, keys, rs, back);
  }

  // ----- one-time passwords

  function Algorithms(a: Algorithm): Option<HashAlgorithm> {
    match a
    case HmacSha1 => Some(SHA1)
    case HmacSha256 => Some(SHA256)
    case HmacSha512 => Some(SHA512)
    case NoAlgorithm => None
  }

  function AlgorithmOf(a: HashAlgorithm): Algorithm {
    match a
    case SHA1 => HmacSha1
    case SHA256 => HmacSha256
    case SHA512 => HmacSha512
  }

  function EntryOfTotp(r: TotpRecord): TotpEntry
    requires !r.algorithm.NoAlgorithm?
  {
    TotpEntry(r.timestep, r.secret, r.digits, Algorithms(r.algorithm).value, r.name, r.isHotp)
  }

  /** The backup of a record without an algorithm ends in a panic. */
  function TotpEntries(rs: seq<TotpRecord>): Result<seq<TotpEntry>, BackupError> {
    if rs == [] then Ok([])
    else
      match TotpEntries(rs[..|rs| - 1])
      case Err(e) => Err(e)
      case Ok(es) =>
        var r := rs[|rs| - 1];
        if r.algorithm.NoAlgorithm? then Err(InvalidAlgorithm) else Ok(es + [EntryOfTotp(r)])
  }

  function RestoredTotp(e: TotpEntry, notes: string, now: nat): TotpRecord {
    TotpRecord(
      RESTORED_VERSION, e.sharedSecret, e.name, AlgorithmOf(e.algorithm), notes,
      e.digitCount, e.stepSeconds, now, false)
  }

  function RestoredTotps(es: seq<TotpEntry>, notes: string, clock: Clock): (rs: seq<TotpRecord>)
    requires |clock| == |es|
    ensures |rs| == |es| && forall i :: 0 <= i < |rs| ==>
      && rs[i].name == es[i].name && rs[i].secret == es[i].sharedSecret && rs[i].notes == notes
      && rs[i].algorithm == (match es[i].algorithm
         case SHA1 => HmacSha1
         case SHA256 => HmacSha256
         case SHA512 => HmacSha512)
      && rs[i].digits == es[i].digitCount && rs[i].timestep == es[i].stepSeconds
      && rs[i].version == RESTORED_VERSION && rs[i].ctime == clock[i] && !rs[i].isHotp
  {
    seq(|es|, i requires 0 <= i < |es| => RestoredTotp(es[i], notes, clock[i]))
  }

  function TotpBackup(hash: C.Hasher, dict: Dict, keys: seq<string>): Result<seq<TotpEntry>, BackupError> {
    match All(TotpKind(hash), dict, keys)
    case Ok(rs) => TotpEntries(rs)
    case Err(e) => Err(e)
  }

  method BackupTotps(hash: C.Hasher, m: Manager, keylist: seq<string>) returns (r: Result<seq<TotpEntry>, BackupError>)
    modifies m`fault
    ensures Genuine(old(m.State()), r, TotpBackup(hash, m.dict, keylist))
  {
    var records :- ReadAll(TotpKind(hash), m, keylist);
    var entries := [];
    for i := 0 to |records|
      invariant TotpEntries(records[..i]) == Ok(entries)
    {
      assert records[..i + 1][..i] == records[..i];
      var code := records[i];
      match code.algorithm {
        case NoAlgorithm =>
          TotpEntriesFail(records, i + 1);
          return Err(InvalidAlgorithm);
        case _ =>
          entries := entries + [EntryOfTotp(code)];
      }
    }
    assert records[..|records|] == records;
    r := Ok(entries);
  }

  lemma {:induction false} TotpEntriesFail(rs: seq<TotpRecord>, n: nat)
    requires n <= |rs| && TotpEntries(rs[..n]).Err?
    ensures TotpEntries(rs) == TotpEntries(rs[..n])
    decreases |rs|
  {
    if n == |rs| {
      assert rs[..n] == rs;
    } else {
      var front := rs[..|rs| - 1];
      assert front[..n] == rs[..n];
      TotpEntriesFail(front, n);
    }
  }

  method RestoreTotps(hash: C.Hasher, m: Manager, entries: seq<TotpEntry>, notes: string, clock: Clock)
    returns (r: Result<(), StoreError>)
    requires |clock| == |entries|
    modifies m
    ensures (m.State(), r) == Restored(old(m.State()), Stored(TotpKind(hash), RestoredTotps(entries, notes, clock)))
  {
    var stored: Entries := [];
    for i := 0 to |entries|
      modifies {}
      invariant |stored| == i
      invariant forall j :: 0 <= j < i ==>
        stored[j] == StoredAs(TotpKind(hash), RestoredTotp(entries[j], notes, clock[j]))
    {
      var totp := RestoredTotp(entries[i], notes, clock[i]);
      stored := stored + [(hash(totp.name), PrintTotp(totp))];
    }
    assert stored == Stored(TotpKind(hash), RestoredTotps(entries, notes, clock));
    r := Confirm(m, stored);
  }

  lemma {:induction false} TotpEntriesIff(rs: seq<TotpRecord>)
    ensures TotpEntries(rs).Ok? <==> forall i :: 0 <= i < |rs| ==> !rs[i].algorithm.NoAlgorithm?
    ensures TotpEntries(rs).Ok? ==> |TotpEntries(rs).value| == |rs|
    ensures TotpEntries(rs).Ok? ==> forall i :: 0 <= i < |rs| ==>
              !rs[i].algorithm.NoAlgorithm? && TotpEntries(rs).value[i] == EntryOfTotp(rs[i])
  {
    if rs != [] {
      var front := rs[..|rs| - 1];
      TotpEntriesIff(front);
      assert forall i :: 0 <= i < |front| ==> front[i] == rs[i];
    }
  }

  /** Entry by entry, what a backup of one-time passwords holds; the notes and the creation time are not in it. */
  lemma TotpEntryIs(rs: seq<TotpRecord>, i: nat)
    requires TotpEntries(rs).Ok? && i < |rs|
    ensures |TotpEntries(rs).value| == |rs|
    ensures var (r, e) := (rs[i], TotpEntries(rs).value[i]);
            && e.name == r.name && e.sharedSecret == r.secret && e.digitCount == r.digits
            && e.stepSeconds == r.timestep && e.hotp == r.isHotp
            && match r.algorithm {
                 case HmacSha1 => e.algorithm.SHA1?
                 case HmacSha256 => e.algorithm.SHA256?
                 case HmacSha512 => e.algorithm.SHA512?
                 case NoAlgorithm => false
               }
  {
    TotpEntriesIff(rs);
  }

  lemma {:induction false} TotpLinesInRange(r: TotpRecord, lines: seq<string>)
    requires r.InRange()
    ensures var p := ApplyLines(TotpField, r, lines); p.Ok? ==> p.value.InRange()
    decreases |lines|
  {
    if lines != [] {
      match ApplyLine(TotpField, r, lines[0])
      case Ok(next) => TotpLinesInRange(next, lines[1..]);
      case Err(_) =>
    }
  }

  lemma TotpReadsBack(text: string, notes: string, now: nat)
    requires now < U64_LIMIT && '\n' !in notes
    requires ParseTotp(DEFAULT_TOTP, Some(text)).Ok?
    requires !ParseTotp(DEFAULT_TOTP, Some(text)).value.algorithm.NoAlgorithm?
    ensures var r := RestoredTotp(EntryOfTotp(ParseTotp(DEFAULT_TOTP, Some(text)).value), notes, now);
            ParseTotp(DEFAULT_TOTP, Some(PrintTotp(r))) == Ok(r)
  {
    TotpLinesNewlineFree(DEFAULT_TOTP, Split(text, '\n'));
    TotpLinesInRange(DEFAULT_TOTP, Split(text, '\n'));
    var r := RestoredTotp(EntryOfTotp(ParseTotp(DEFAULT_TOTP, Some(text)).value), notes, now);
    TotpRoundTrip(r, DEFAULT_TOTP);
  }

  /** What a restored one-time password keeps: name, secret, algorithm, digits and step. */
  function CodeOf(r: TotpRecord): (string, string, Algorithm, nat, nat) {
    (r.name, r.secret, r.algorithm, r.digits, r.timestep)
  }

  ghost predicate HaveAlgorithms(hash: C.Hasher, dict: Dict) {
    forall k :: k in dict ==> HasAlgorithm(TotpKind(hash).read(dict[k]))
  }

  ghost predicate HasAlgorithm(r: Result<TotpRecord, ParseError>) { r.Ok? && !r.value.algorithm.NoAlgorithm? }

  lemma OneCodeSurvives(hash: C.Hasher, text: string, r: TotpRecord, notes: string, now: nat)
    requires now < U64_LIMIT && '\n' !in notes && TotpKind(hash).read(text) == Ok(r) && !r.algorithm.NoAlgorithm?
    ensures Survives(TotpKind(hash), CodeOf, TotpKind(hash).key(r), r, RestoredTotp(EntryOfTotp(r), notes, now))
  {
    TotpReadsBack(text, notes, now);
  }

  lemma RestoringKeepsCodes(
    hash: C.Hasher, dict: Dict, keys: seq<string>, rs: seq<TotpRecord>, notes: string, clock: Clock)
    requires Consistent(TotpKind(hash), dict) && Lists(keys, dict) && |clock| == |keys| == |rs| && '\n' !in notes
    requires forall i :: 0 <= i < |keys| ==> keys[i] in dict && TotpKind(hash).read(dict[keys[i]]) == Ok(rs[i])
    requires TotpEntries(rs).Ok?
    ensures |TotpEntries(rs).value| == |clock|
    ensures Keeps(TotpKind(hash), CodeOf, dict, RestoredTotps(TotpEntries(rs).value, notes, clock))
  {
    var kind := TotpKind(hash);
    TotpEntriesIff(rs);
    var back := RestoredTotps(TotpEntries(rs).value, notes, clock);
    forall i | 0 <= i < |keys| ensures Survives(kind, CodeOf, keys[i], rs[i], back[i]) {
      OneCodeSurvives(hash, dict[keys[i]], rs[i], notes, clock[i]);
    }
    StoringKeeps(kind, CodeOf, dict, keys, rs, back);
  }

  lemma HaveAlgorithmsIff(hash: C.Hasher, dict: Dict, keys: seq<string>, rs: seq<TotpRecord>)
    requires Lists(keys, dict) && |keys| == |rs|
    requires forall i :: 0 <= i < |keys| ==> keys[i] in dict && TotpKind(hash).read(dict[keys[i]]) == Ok(rs[i])
    ensures HaveAlgorithms(hash, dict) <==> TotpEntries(rs).Ok?
  {
    TotpEntriesIff(rs);
    if TotpEntries(rs).Ok? {
      forall k | k in dict ensures HasAlgorithm(TotpKind(hash).read(dict[k])) {
        var i :| 0 <= i < |keys| && keys[i] == k;
      }
    }
    if HaveAlgorithms(hash, dict) {
      forall i | 0 <= i < |rs| ensures !rs[i].algorithm.NoAlgorithm? {
        assert HasAlgorithm(TotpKind(hash).read(dict[keys[i]]));
      }
    }
  }

  /** Backing up a consistent vault of one-time passwords succeeds exactly when every text names an
      algorithm (printed records do), and restoring those entries into an empty vault then keeps the key
      set and, under every key, name, secret, algorithm, digits and step. */
  lemma TotpsSurviveIff(hash: C.Hasher, dict: Dict, keys: seq<string>, notes: string, clock: Clock)
    requires Consistent(TotpKind(hash), dict) && Lists(keys, dict) && |clock| == |keys| && '\n' !in notes
    ensures var backup := TotpBackup(hash, dict, keys);
            && (backup.Ok? <==> HaveAlgorithms(hash, dict))
            && (backup.Ok? ==>
                  && |backup.value| == |clock|
                  && Keeps(TotpKind(hash), CodeOf, dict, RestoredTotps(backup.value, notes, clock)))
  {
    AllReads(TotpKind(hash), dict, keys);
    var rs := All(TotpKind(hash), dict, keys).value;
    HaveAlgorithmsIff(hash, dict, keys, rs);
    if TotpEntries(rs).Ok? {
      RestoringKeepsCodes(hash, dict, keys, rs, notes, clock);
    }
  }
}
