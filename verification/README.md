# Verified models of the badge and vault firmware

The firmware keeps passwords and one-time passwords, acts as a FIDO authenticator, and lets badges
exchange light-pattern genes over QR codes. This project models the parts of it where the reasoning is
hard, in Dafny, and proves what they promise. `dafny verify dfyconfig.toml` checks all of it.

- **Item cache and record store** (`ItemCache`, `ListView`, `Coherence`, `Actions`, `ActionRuns`, `Text`,
  `Storage`): the lazily sorted list refines a finite map; list and store stay in agreement over runs of
  user actions under conditions that are exact for each action; what a failing database call leaves behind.
- **Authenticator** (`PinMachine`, `PinSafety`, `PinPolicy`, `PinChecks`, `TokenSafety`, `ConfigSafety`, and as
  objects `Platform`, `ClientPin`, `AuthenticatorRuns`): PIN retries, policy and tokens over every run of commands, with
  power cycles and with storage calls that fail at any point. `PinChecks` and `ConfigSafety` say what the
  commands come to: whose PIN passes, how far guessing gets, which PIN is stored, what configuration sets.
  `CtapStatus` has the status codes.
- **Gene exchange** (`Genes`, `GeneRuns`, and as an object `BadgeLoop`): any number of badges scanning
  any codes in any order.
- **Credential IDs** (`CredentialId`, `CredentialSafety`, `CredentialCodec`, with `Cbc`, `Cbor`,
  `CborRoundTrip`, `CborOrder`, `BigEndian`, `Bits`, `Bytes`, `Utf8`).
- **Backups** (`Backup`, `BackupWire`, and as an object `VendorSession`): from the vault to entries, to CBOR,
  to wires that fit a HID message each, and back into a vault.
- **Formats** (`RecordText`, `Records`, `RecordReaders`, `Decimal`, `Apdu`, `Pools`, `Totp`) and **loops**
  (`Generator`, `Bitmap`).

Where the original changes objects in place there is a class or an array method, proved against functions
on values; the results about runs are lemmas about those functions. A `?` that returns early is an early
return; a panic is an outcome of its own.

## What the code does, where one might expect otherwise

- `filter` never walks back to index 0 (`src/itemcache.rs:245`): the first of two entries with the very
  name searched for can be missing from the range. `FilterIsCompleteIff` has the exact condition.
- The storage key hashes description and username one after the other (`src/storage.rs:783-788`), so
  "a" with user "bc" and "ab" with user "c" share a key. Agreement of store and cache is therefore proved
  under a guard on the stored key, in both directions, and not under an assumption on the hash.
- A URL scanned for a new password, and a new username, pass no validator (`src/actions.rs:189-193`,
  `331-367`). With a newline in it the URL carries lines of its own into the stored text: the record reads back
  under another description and hash than those it is cached and stored under. Agreement after an addition is
  proved to hold exactly if what reads back has the description and the key of what was added; for records
  from a scanned code that is freedom from newlines, unless two texts hash alike.
- The persistent store deletes an entry before it rewrites it
  (`libraries/persistent_store/src/store.rs:280-312`). A write that fails in between loses the entry and
  brings back its default: all retries, the configured minimum, no mark. Such lost writes are part of every
  run. Each property has its own guard, a condition on one command, the state it meets and the fault planned
  for it, and holds in every state of a run if and only if no command of the run meets that guard.
- `pddb_store` takes a lookup that fails for a key that is not there (`src/storage.rs:84-109`), so a batch that
  overwrites nothing can overwrite one record; `update` deletes before it writes (`src/storage.rs:260-272`), so
  two of its calls lose the record when they fail.
- A reset that fails after the erasure keeps the count of mismatches (`src/ctap/mod.rs:1391-1392`).
- Strict `generate` never ends for an empty list of pools, a length of zero, or one below the number of
  pools; settings with symbols on but none allowed have no pools.
- A scanned base45 code shorter than the header of a key code ends the program (`src/main.rs:624`), and a
  sealed gamete that begins like that header is taken for a key code.
- `generate_totp_code` takes a power of ten without overflow checks, as the release build has none
  (`src/totp.rs:137-141`). Up to 63 digits its wrapping never shows in a code; from 64 on the power is zero and
  the division panics. A digit count of zero prints one digit.
- A record text without an algorithm line ends a backup in a panic (`src/vendor_commands.rs:360`).
- A backup sends the step of a one-time password as a signed number (`libraries/backup/src/lib.rs:106`). From
  2^63 on it arrives negative, is refused, and the refusal is unwrapped: the restore panics.
- The CBOR reader casts the length of a string to `usize` (`libraries/cbor/src/reader.rs:152-167`), which has 32
  bits on the device. A head that claims 2^32 bytes and more is read as the remainder, although the writer
  never makes it; without such a head the reader accepts exactly what the writer makes.

## Assumptions

Cryptography is abstract: AES is any permutation of blocks, HMAC and SHA-256 are functions (an HMAC with
distinct tokens is distinct), key agreement yields a value of both keys. In the gene exchange a nonce drawn
is one nobody has used, and a code that opens under a badge's nonce was sealed under it by some badge.
Random choices are inputs. `meiosis`, `mutate`, the byte form of a haploid (at most 15 bytes), base45 and
base32 are parameters; the crate that has the genetics is not part of this model. The random pick of
`generate` gives the requested number of characters of the pools, or nothing from an empty choice. UTF-8 is any
encoding into well-formed bytes that decodes again. A write to the password database replaces the whole value;
the crate that has the database is not part of this model.

## Model

| member | source | states |
|---|---|---|
| `Text.PrefixConvex` | src/itemcache.rs:244-260 | what lies between a prefix and a string that has it has the prefix too, which is why matches form one block of a sorted list |
| `Text.CompareTransitive` | src/itemcache.rs:29-36 | the string order behind both key orders is transitive |
| `Text.CompareIsDictionary` | src/itemcache.rs:29-36 | at the first difference the string that ends, or has the smaller character, comes first |
| `ItemCache.CompareKeysTransitive` | src/itemcache.rs:29-36 | the order on (lowercased name, guid) is transitive |
| `ItemCache.OrderedIsAlphabeticalIff` | src/itemcache.rs:29-36 | a list is in order if and only if of any two items the earlier one has a lowercased name that ends or has the smaller character at the first difference, or the same name and such a guid |
| `ItemCache.SortKeepsMap` | src/itemcache.rs:179-185 | sorting a list of distinct keys gives strict order and loses no entry |
| `ItemCache.InsertAt` | src/itemcache.rs:186-191 | insertion at the point a failed search reports keeps strict order and adds exactly that entry to the map |
| `ItemCache.RemoveAt` | src/itemcache.rs:194-204 | removing a position removes exactly that key and keeps the order |
| `ItemCache.PushAsMap` | src/itemcache.rs:163-166 | pushing a fresh key adds exactly that entry to the map |
| `ItemCache.PushKeepsDistinctIff` | src/itemcache.rs:163-166 | pushing keeps keys distinct if and only if the key is fresh |
| `ItemCache.MatchesContiguous` | src/itemcache.rs:243-262 | the matches of a criterion are contiguous in a sorted list |
| `ItemCache.FilterIsCompleteIff` | src/itemcache.rs:217-267 | the filter gives the whole block of matches, wherever the search lands, if and only if the criterion is not the lowercased name of both of the first two entries |
| `ListView.SearchKey` | src/itemcache.rs:185-190 | binary search finds the key or reports where it belongs |
| `ListView.SearchName` | src/itemcache.rs:237 | binary search by name lands on some equal entry, or where the name belongs |
| `ListView.FilteredListView.Push` | src/itemcache.rs:163-166 | appends, unsorted, as the map update; the list stays proper exactly if the key was not in it |
| `ListView.FilteredListView.Clear` | src/itemcache.rs:168-173 | empties the list and drops the range |
| `ListView.FilteredListView.InsertUnique` | src/itemcache.rs:179-192 | map update; returns the entry replaced, if any; drops the range |
| `ListView.FilteredListView.Remove` | src/itemcache.rs:194-204 | map removal; returns the entry removed, if any; drops the range |
| `ListView.FilteredListView.Get` | src/itemcache.rs:206-215 | finds the position of a key exactly when the map has it; changes no contents |
| `ListView.FilteredListView.Put` | src/actions.rs:1201-1235 | a write through the handed-out reference updates that one key |
| `ListView.FilteredListView.Filter` | src/itemcache.rs:217-267 | contents unchanged; the range is none exactly when nothing matches, else a block of matches around the landing point that lacks at most entry 0 |
| `ListView.FilteredListView.BlockAround` | src/itemcache.rs:243-262 | the two walks find that block and stay inside the list |
| `ListView.FilteredListView.FilterReset` | src/itemcache.rs:269 | the range becomes the whole list |
| `ListView.NoMatchWhenProbeFails` | src/itemcache.rs:239-240 | when the entry at the landing point does not match, none does |
| `ListView.RunOps` | src/itemcache.rs:145-269 | any sequence of operations on the lazily sorted list gives the results and the contents of a finite map |
| `Coherence.AddKeepsCoherenceIff` | src/actions.rs:563-587 | adding a record to store and cache keeps them in agreement if and only if no record with another lowercased description is stored under its hash, and what its text reads back as has its description and its hash |
| `Coherence.RemoveKeepsCoherence` | src/actions.rs:706-755 | deleting from both keeps agreement |
| `Coherence.ChangeInPlaceKeepsCoherence` | src/actions.rs:1536-1540 | a change that leaves description and username alone keeps agreement |
| `Coherence.EditKeepsCoherenceIff` | src/actions.rs:862-1068 | an edit, which may move the key, keeps agreement under exactly that condition |
| `Coherence.CompleteCacheCoherentIff` | src/actions.rs:1178-1255 | after a reload cache and store agree if and only if no entry of a vanished record was there before and every record reads as one that belongs under its key; times and counts always match |
| `Coherence.CollidingRecordsBreakCoherence` | src/storage.rs:783-788 | records whose description and username run together to the same text break the agreement, for every hash function |
| `Coherence.CollidingPairExists` | src/storage.rs:783-788 | such a pair exists |
| `Actions.RecordFormatIsLawful` | src/storage.rs:704-781 | both parsers give back every storable record; whatever is read is in range and without newlines; of any printed record both make the same, and if they make one it has the times and count that were printed |
| `Actions.ScannedSettlesIff` | src/actions.rs:331-367 | a record from a scanned code reads back under its own description and hash if it has no newline, and if it does read back so although it has one, two different texts hash alike |
| `Actions.InjectionUnsettles` | src/actions.rs:351-367 | a description with a username line in it reads back as its first line, under another description, for every hash function |
| `Actions.ActionManager.Add` | src/actions.rs:331-367 | stores any record in range under its hash; the list shows its description, time and count under that key; the database becomes what reads back; agreement is kept exactly when the key fits and the record settles, and then times and counts match too |
| `Actions.ActionManager.MenuDelete` | src/actions.rs:706-755 | removes record and entry; the cache always had the entry |
| `Actions.ActionManager.Update` | src/storage.rs:260-272 | the record moves to the key of its new contents |
| `Actions.ActionManager.MenuEdit` | src/actions.rs:862-1068 | under the hash of the description and username of the form there is a record with the four texts of the form, a count one higher and both times now, listed as such; the old key is free unless it is the same, and every other record is as it was |
| `Actions.ActionManager.UpdateDbEntry` | src/actions.rs:761-783 | re-reading a record replaces the cache entry that is there already; a moved record is only reported |
| `Actions.ActionManager.IncrementUsage` | src/actions.rs:1536-1540 | one use more, at this time, in the store alone: all texts stay, and agreement is kept |
| `Actions.ActionManager.Autotype` | src/ux.rs:1752-1814 | one use more, at this time, stored under the same key with texts and creation time as they were |
| `Actions.ActionManager.RetrieveDb` | src/actions.rs:1178-1255 | after a reload every readable record has its item with its own time and count, and the range is the whole list; agreement exactly when no stray entries were there and every record belongs under its key |
| `ActionRuns.Perform` | src/action_handler.rs:33-56 | each user action changes the records as specified and, from a state in agreement, leaves one in agreement if and only if its record fits the key it lands on and, when added, reads back as itself in description and key |
| `ActionRuns.Run` | src/action_handler.rs:25-75 | over every run of actions that fit, store and cache agree, no assert fires, and times and counts match after a reload |
| `RecordText.ParsePrinted` | src/storage.rs:421-445 | parsing printed fields applies exactly those fields, whatever colons the data hold |
| `Decimal.ParsePrint` | src/storage.rs:430-437 | a printed number parses back exactly when it is in range |
| `Decimal.PrintedDigit` | src/storage.rs:497-519 | a printed number has its decimal digits, the last one for the ones, and no zero in front |
| `Records.PasswordRoundTrip` | src/storage.rs:704-781 | a printed password record reads back, by either parser, if and only if no text field holds a newline |
| `Records.TotpRoundTrip` | src/storage.rs:421-520 | the same for one-time-password records, with no algorithm read as SHA1 |
| `Records.PasswordText` | src/storage.rs:760-781 | the stored text of a password, tag by tag and line by line |
| `Records.TotpText` | src/storage.rs:497-519 | the same for one-time passwords |
| `Records.PasswordSkips` | src/storage.rs:704-758 | a line without a colon, or with a tag of no field, changes nothing |
| `Records.TotpSkips` | src/storage.rs:421-495 | the same for one-time passwords |
| `Records.PrintedNumbersComeBack` | src/storage.rs:704-781 | whatever newlines do to a printed record, if it reads at all its times and count are those printed |
| `Records.InjectedUsernameIsRead` | src/storage.rs:704-781 | a description that carries a username line reads back as two fields |
| `Records.PasswordParsersAgree` | src/storage.rs:704-758 | on every input both password parsers accept or refuse together with the same error, and differ at most in the version when none is given |
| `Records.PrintedParsesAgree` | src/storage.rs:704-858 | of a printed record, mangled by newlines or not, both parsers make the same |
| `Records.TotpParsersAgree` | src/storage.rs:529-616 | the same for one-time passwords, with version and algorithm |
| `RecordReaders.PasswordBuffer.FromVec` | src/storage.rs:704-758 | the in-place parser's result does not depend on what the buffer held |
| `RecordReaders.PasswordTryFrom` | src/storage.rs:791-858 | the constructing parser is the same fold from a new record |
| `RecordReaders.TotpBuffer.FromVec` | src/storage.rs:421-495 | the in-place parser's result does not depend on the buffer; a refusal leaves it alone |
| `Storage.BatchReportsDuplicates` | src/storage.rs:180-230 | without overwriting, exactly the positions whose key was stored before or earlier in the batch are reported |
| `Storage.BatchReportsInOrder` | src/storage.rs:186-228 | the report is in increasing order and within the batch |
| `Storage.BatchStoresTheRest` | src/storage.rs:105-138 | nothing stored before is touched and every other position is stored |
| `Storage.BatchWithOverwrite` | src/storage.rs:105-138 | with overwriting nothing is refused and the last entry for a key stays |
| `Storage.WithoutFaults` | src/storage.rs:180-230 | if no call fails, the loop over failing calls is that batch |
| `Storage.StoringKeepsOldIff` | src/storage.rs:84-109 | storing without overwriting keeps every record that was there, whichever call fails, if and only if the failing call is not the lookup of a key that was there with another text |
| `Storage.UpdateLosesIff` | src/storage.rs:260-272 | an update keeps the old text under the old key or the new one under the new key if and only if neither the creation of the new key nor the write after it fails |
| `Storage.Manager.PddbStore` | src/storage.rs:84-138 | refuses an existing key unless told to overwrite, else creates it if need be and replaces the value; at every failing call what the code leaves behind |
| `Storage.Manager.Update` | src/storage.rs:260-272 | deletes the old key and stores under the new one; at every failing call what the code leaves behind |
| `Storage.Manager.Delete` | src/storage.rs:274-280 | removes one key, reports that it is missing, or fails with nothing removed |
| `Storage.Manager.NewRecords` | src/storage.rs:180-230 | the batch loop leaves the dictionary and the report of the recursive batch, up to the first call that fails |
| `Backup.ReadAll` | src/storage.rs:232-246 | reads every listed key in order, or stops at the first failure, that of a call included |
| `Backup.BackupPasswords` | src/vendor_commands.rs:369-384 | the entries of all passwords, in order, unless a call fails |
| `Backup.BackupTotps` | src/vendor_commands.rs:345-368 | the entries of all one-time passwords, or a panic at one without algorithm, unless a call fails |
| `Backup.TotpEntryIs` | src/vendor_commands.rs:345-368 | field by field, the entry a backup makes of a one-time password |
| `Backup.RestorePasswords` | src/vendor_commands.rs:280-299 | stores every entry as a new record under its own hash, up to the first call that fails; existing keys do not count as an error |
| `Backup.RestoreTotps` | src/vendor_commands.rs:258-279 | the same for one-time passwords |
| `Backup.RestoredPasswords` | src/vendor_commands.rs:280-299 | a restored password has the four texts of its entry, the time of the restore, and no use yet |
| `Backup.RestoredTotps` | src/vendor_commands.rs:258-279 | a restored one-time password has the fields of its entry, the given notes, the time of the restore, and no flag |
| `Backup.StoringKeeps` | src/storage.rs:180-230 | records that survive reading and writing, stored under distinct keys of an empty vault, are all there afterwards |
| `Backup.PasswordsSurvive` | src/vendor_commands.rs:280-311 | backup and restore into an empty vault keep the key set and every description, username, password and notes |
| `Backup.TotpsSurviveIff` | src/vendor_commands.rs:258-311 | the backup succeeds if and only if every record names an algorithm; storing its entries then keeps the key set and every name, secret, algorithm, digits and step |
| `BackupWire.ReadElements` | libraries/backup/src/lib.rs:154-167 | the loop over the elements of an array unwraps each conversion |
| `BackupWire.TotpComesBack` | libraries/backup/src/lib.rs:103-146 | an entry comes back from its CBOR, but for the counter flag, if its step is below 2^63, and is refused if not |
| `BackupWire.PasswordPacketComesBack` | libraries/backup/src/lib.rs:186-333 | a packet of passwords, written and read as bytes, comes back as it was |
| `BackupWire.PasswordPacketIs` | libraries/backup/src/lib.rs:186-289 | what is sent: the kind 1, and an array of maps that number description, username, password and notes from 1 to 4 |
| `BackupWire.TotpPacketComesBackIff` | libraries/backup/src/lib.rs:103-333 | a packet of one-time passwords comes back, but for the flags, if every step is below 2^63; if one is not, reading it panics |
| `BackupWire.TotpPacketIs` | libraries/backup/src/lib.rs:55-289 | what is sent: the kind 2, and an array of maps that number step, secret, digits, algorithm (1 to 3) and name from 1 to 5 |
| `BackupWire.TotpBackupRestoresIff` | src/vendor_commands.rs:247-311 | end to end: backed up, sent and restored into an empty vault, one-time passwords keep the key set and every name, secret, algorithm, digits and step if and only if every text names an algorithm and every step is below 2^63 |
| `BackupWire.LongStepPanics` | libraries/backup/src/lib.rs:154-167 | the failing input: one entry with a step of 2^63 |
| `VendorSession.WireComesBack` | libraries/backup/src/lib.rs:450-495 | every wire, written and read as bytes, comes back |
| `VendorSession.WireIs` | libraries/backup/src/lib.rs:450-470 | what a wire holds under the keys 1 to 4: its number, its size, whether more follow, and its data |
| `VendorSession.WireFits` | libraries/backup/src/lib.rs:408-433 | a wire of at most 7588 bytes of data fits a message of 7609 bytes, and is never taken for a request of a backup |
| `VendorSession.CutIntoWires` | libraries/backup/src/lib.rs:414-433 | the wires are numbered and full but for the last, the only one that announces no more; together they are the bytes |
| `VendorSession.VendorSession.ReadFromWire` | src/vendor_commands.rs:44-59 | the data are appended before command and index are checked |
| `VendorSession.VendorSession.DrainBackup` | src/vendor_commands.rs:61-75 | wires loaded in reverse are drained in order |
| `VendorSession.VendorSession.HandleVendorData` | src/vendor_commands.rs:90-162 | reset, request of a backup, or one wire, with its refusals |
| `VendorSession.Transfer` | src/vendor_commands.rs:44-162 | whatever one side cuts and sends the other has after the last wire, and it asks for more until then |
| `Platform.Platform.DecrPinRetries` | src/ctap/storage.rs:337-344 | spends one retry, with the failures of the store |
| `Platform.Platform.SetPin` | src/ctap/storage.rs:308-325 | writes hash and length and lifts the mark, in one transaction |
| `Platform.Platform.SetMinPinLengthRpIds` | src/ctap/storage.rs:377-393 | adds the default relying parties, refuses too many |
| `ClientPin.PinUvAuthTokenState.ObserveTime` | src/ctap/token_state.rs:124-132 | a token past its deadline is out of use |
| `ClientPin.ClientPin.Verify` | src/ctap/client_pin.rs:161-199 | spends a retry before it compares; a mismatch costs a key and counts; a match restores the retries; it ends as the machine does, whose check passes exactly for the stored hash (`PinChecks.CheckPassesIff`) |
| `ClientPin.ClientPin.CheckAndStore` | src/ctap/client_pin.rs:62-97 | stores the padded new PIN only within the length rules |
| `ClientPin.ClientPin.DoSetPin` | src/ctap/client_pin.rs:229-254 | refuses once a PIN is set; else stores it and restores the retries |
| `ClientPin.ClientPin.DoChangePin` | src/ctap/client_pin.rs:256-292 | checks the old PIN, stores the new one, replaces both tokens; it ends as the machine does, which then holds the new PIN (`PinChecks.ChangePinStores`) |
| `ClientPin.ClientPin.DoGetPinToken` | src/ctap/client_pin.rs:294-345 | checks the PIN, refuses while it has to be changed, replaces both tokens |
| `ClientPin.ClientPin.DoGetTokenWithPermissions` | src/ctap/client_pin.rs:362-388 | the same with the requested permissions and relying party |
| `ClientPin.ClientPin.ProcessCommand` | src/ctap/client_pin.rs:391-431 | the dispatch of the subcommands |
| `ClientPin.ClientPin.VerifyToken` | src/ctap/client_pin.rs:434-450 | accepts exactly the code of the current token while it is in use |
| `ClientPin.ClientPin.EnsureRpIdPermission` | src/ctap/client_pin.rs:554-565 | binds an unbound token, refuses another relying party |
| `ClientPin.SetMinPinLength` | src/ctap/config_command.rs:45-74 | the ordered writes of the minimum, the mark and the relying parties |
| `ClientPin.RunConfig` | src/ctap/config_command.rs:77-122 | the authorisation and dispatch of a configuration command |
| `AuthenticatorRuns.ResetAuthenticator` | src/ctap/storage.rs:466-471 | the erasure, then the fresh held state |
| `AuthenticatorRuns.RunAll` | src/ctap/client_pin.rs:391-460 | the objects, through any commands, resets and power cycles, stay on the run of the machine |
| `AuthenticatorRuns.RunFromFactory` | src/ctap/client_pin.rs:117-460 | a device out of the factory, driven through any inputs, has all the properties of runs, each under its own condition |
| `PinSafety.VerifyConservesIff` | src/ctap/client_pin.rs:161-199 | a PIN check keeps retries plus checks at the maximum, whatever call fails, except exactly when a lowered counter is deleted and not rewritten |
| `PinSafety.StepConservesIff` | src/ctap/client_pin.rs:161-199 | any command keeps it if and only if it is not a PIN check, past all its tests, whose fourth storage call loses a counter below the maximum |
| `PinSafety.RetriesConserved` | src/ctap/client_pin.rs:161-199 | in every state of a run with power cycles and failing calls, remaining retries plus checks since the last restore equal the maximum, if and only if no command of the run loses such a counter |
| `PinSafety.VerifyBoundsMismatchesIff` | src/ctap/client_pin.rs:161-199 | a PIN check keeps mismatches within three and, with the retries, within the maximum, except exactly when the counter is lost with one or two mismatches outstanding |
| `PinSafety.StepBoundsMismatchesIff` | src/ctap/client_pin.rs:161-199 | any command keeps that bound if and only if it is not, with a mismatch outstanding, a reset interrupted after the erasure or a PIN check that loses the counter |
| `PinSafety.MismatchesStayBounded` | src/ctap/client_pin.rs:161-199 | the bound holds in every state of a run if and only if no command of the run is one of those two |
| `PinSafety.InterruptedResetIff` | src/ctap/mod.rs:1391-1392 | a reset that fails after the erasure keeps that bound if and only if no mismatch was outstanding |
| `PinSafety.LockedRefuses` | src/ctap/client_pin.rs:229-323 | locked, every command that checks a PIN fails and changes nothing |
| `PinSafety.LockoutIsFinal` | src/ctap/client_pin.rs:161-199 | without retries, or after three mismatches in a power cycle, no PIN is checked again and the counter stands still, until an erasure (or a power cycle) |
| `PinChecks.CheckPassesIff` | src/ctap/client_pin.rs:161-199 | a PIN check passes if and only if the bytes presented decrypt to the stored hash, fewer than three mismatches are outstanding, and the store works for its three or four calls |
| `PinChecks.RightPinRestores` | src/ctap/client_pin.rs:192-198 | it then restores all retries and clears the mismatches |
| `PinChecks.WrongPinCosts` | src/ctap/client_pin.rs:175-191 | bytes that decrypt to anything else cost one retry and the key: PIN_BLOCKED with the last one, PIN_AUTH_BLOCKED with the third mismatch, else PIN_INVALID |
| `PinChecks.WrongPinGainsNothing` | src/ctap/client_pin.rs:256-388 | whatever the state and the fault, a PIN change or token request without the stored hash fails, stores nothing but a spent retry, and issues nothing |
| `PinChecks.GuessingIsBounded` | src/ctap/client_pin.rs:161-199 | over every run that never presents the right PIN, with power cycles, configuration and failing calls, at most as many checks are made as retries were left, none passes, no token is issued, and the PIN stays |
| `PinChecks.SetPinIff` | src/ctap/client_pin.rs:229-254 | a first PIN is set if and only if none is, the request is authentic, the field decrypts to 64 bytes with a PIN of acceptable length before the zeros, and the store works for five calls |
| `PinChecks.SetPinStores` | src/ctap/client_pin.rs:62-97 | the hash and the length in code points of that very PIN are what is stored then |
| `PinChecks.ChangePinIff` | src/ctap/client_pin.rs:256-292 | a PIN change succeeds if and only if the old PIN is presented, the request is authentic, the new PIN is acceptable, and the store works for eight calls |
| `PinChecks.ChangePinStores` | src/ctap/client_pin.rs:62-97 | then the hash and length of the new PIN are stored, all retries are there, and no change is asked for |
| `PinChecks.GetPinTokenIff` | src/ctap/client_pin.rs:294-345 | a token is issued if and only if the PIN is presented and need not be changed, and the store works for six calls |
| `PinChecks.TokenAnswers` | src/ctap/client_pin.rs:294-345 | while the store works, the status of every complete token request: the first reason for refusal, in order, or none |
| `PinChecks.ChangeAnswers` | src/ctap/client_pin.rs:256-292 | the same for a PIN change, from the lockout to the rules for the new PIN |
| `PinChecks.SetAnswers` | src/ctap/client_pin.rs:229-254 | the same for a first PIN |
| `PinChecks.NewPinOpens` | src/ctap/client_pin.rs:256-345 | after a PIN was set or changed, a token is issued to whoever presents the hash of the new PIN, and to nobody else |
| `PinPolicy.SetMinPinLengthKeepsPolicyIff` | src/ctap/config_command.rs:45-74 | setting the minimum keeps "a PIN below the minimum is marked for change", at every failing call, except exactly when a needed mark is deleted and not rewritten |
| `PinPolicy.SetMinPinLengthRaisesIff` | src/ctap/config_command.rs:45-74 | it never lowers the minimum, except exactly when a raised one is deleted and not rewritten |
| `PinPolicy.StepKeepsPolicyIff` | src/ctap/client_pin.rs:81-97 | every command keeps the policy under every fault, except exactly an authorised configuration that loses a needed mark |
| `PinPolicy.StepRaisesIff` | src/ctap/config_command.rs:54-74 | every command keeps the minimum at or above the configured one, and lowers it exactly if it erases or loses a raised one |
| `PinPolicy.PolicyHolds` | src/ctap/client_pin.rs:324-330 | the policy holds in every state of a run if and only if no command of the run loses a needed mark; then each token ever issued was for a PIN that met the minimum in force |
| `PinPolicy.RunsAreGenuine` | src/ctap/client_pin.rs:81-97 | in every run, whatever is lost, a PIN restores the retries only by a matching comparison, and the stored length is that of the PIN behind the stored hash |
| `PinPolicy.MinimumNeverDecreases` | src/ctap/config_command.rs:54-58 | the minimum is never below the configured one, and no command of a run lowers it if and only if none erases or loses a raised one |
| `PinPolicy.FactoryRuns` | src/ctap/client_pin.rs:117-125 | all of these from the factory state on, each under its own condition on the run |
| `PinPolicy.TornWritesForget` | libraries/persistent_store/src/store.rs:280-307 | a torn write brings back all retries, or a lower minimum |
| `TokenSafety.TokenRequest` | src/ctap/client_pin.rs:294-388 | a successful request replaces both tokens and grants 0x03 unbound, or exactly the requested non-zero mask with a relying party when it touches 0x03; a failed one changes nothing of it |
| `TokenSafety.EarlierTokensAreDead` | src/ctap/client_pin.rs:434-450 | after a token request or PIN change no code under an earlier token is accepted in any later run |
| `TokenSafety.OnlyIssuingGains` | src/ctap/client_pin.rs:499-565 | between issues permissions only shrink and a bound relying party stays while the token is in use |
| `TokenSafety.ConfigNeedsToken` | src/ctap/config_command.rs:77-109 | with a PIN set, or user verification always asked for (but for turning that off), nothing is configured without a code over that command by the token in use, with the permission |
| `TokenSafety.CodePassesIff` | src/ctap/client_pin.rs:434-450 | a code is accepted if and only if it is that of the message under the token in use, cut to 16 bytes under the first protocol |
| `TokenSafety.TokenUseIff` | src/ctap/client_pin.rs:499-565 | a token is good for a request if and only if its code is current, its user verified, the permission held, and its relying party this one or none; then it is bound to this one, and nothing else changes |
| `TokenSafety.TokenLifetime` | src/ctap/token_state.rs:124-132 | a token goes out of use thirty seconds after its issue, and not before |
| `TokenSafety.ClearedTokenIsSpent` | src/ctap/token_state.rs:140-148 | once its flags are cleared a token verifies no user and keeps at most the large-blob permission |
| `ConfigSafety.ConfigurationDoes` | src/ctap/config_command.rs:77-122 | a configuration command that succeeds has done what it says: the minimum, mark and relying parties asked for, the switch turned; PIN, retries and everything volatile stay |
| `ConfigSafety.SetMinPinLengthSets` | src/ctap/config_command.rs:45-74 | one that succeeds leaves exactly the minimum requested |
| `ConfigSafety.SetMinPinLengthAnswers` | src/ctap/config_command.rs:45-74 | while the store works, the status of every request for a minimum: too small, a change of a PIN that is not set, too many relying parties with the configured ones, or none |
| `ConfigSafety.WithDefaultsHas` | src/ctap/storage.rs:377-393 | the list of relying parties has those asked for first, then the configured ones, and no others |
| `ConfigSafety.WithDefaultsSize` | src/ctap/storage.rs:377-393 | and the configured ones that are missing are added once each |
| `ConfigSafety.ResetErases` | src/ctap/storage.rs:466-471 | a reset succeeds if and only if the store works for its five calls; then no PIN is set and every setting has its default |
| `ConfigSafety.PowerCycleForgets` | src/ctap/client_pin.rs:117-125 | a power cycle keeps what is stored and replaces keys, tokens and mismatches |
| `Genes.FirstUsable` | src/config.rs:312-332 | the first draw that is not the start of the header nor the nonce held |
| `Genes.PaddedGamete` | src/config.rs:338-351 | sixteen bytes, the last one the badge type; what the others are is `GeneRuns.DonatesGamete` |
| `GeneRuns.ReplacementHasDonor` | src/main.rs:664-736 | in any run of any number of badges, a gene is replaced only with a payload some badge sealed under the nonce the receiver drew, afresh, before, and has held ever since |
| `GeneRuns.DroppedNonceIsDead` | src/main.rs:634-691 | once a used nonce is not held, no answer to it is ever accepted again |
| `GeneRuns.GeneStep` | src/config.rs:353-374 | the gene changes only to the received haploid beside an egg recombined from the receiver's gene and mutated at its locked rate, both at the raised rate within one badge type, or back to the prior pair |
| `GeneRuns.RevertUndoes` | src/main.rs:931-935 | whatever happens in between, reverting gives the pair from before the last replacement |
| `GeneRuns.ScreensAreCurrent` | src/main.rs:607-881 | in every run the key on a screen is the header with the nonce the badge holds, and the gamete on a screen is its latest, sealed under the nonce it was asked with |
| `GeneRuns.DonatesGamete` | src/config.rs:338-351 | whatever a step gives away is a gamete recombined from the badge's gene, mutated at its locked rate, filled up with zeros, with the type of the badge last |
| `GeneRuns.DonationsAreGametes` | src/main.rs:621-664 | in every run of any number of badges, whatever a badge seals is such a gamete of the gene it has at that moment |
| `GeneRuns.LocksAndSaves` | src/ux.rs:1659-1712 | the locked rate changes only when a key is shown, to the rate of that press, the saved gene only when the user keeps the gene |
| `GeneRuns.SavedWasKept` | src/main.rs:925-935 | in every run a saved gene that is new is one the badge held when its user kept it |
| `GeneRuns.OtherCodes` | src/main.rs:819-855 | a scanned code that is not base45 leaves gene, nonce and key alone |
| `GeneRuns.ExchangeCompletesIff` | src/main.rs:621-736 | show, answer and scan end, if and only if the header has at most 32 bytes and the sealed gamete does not start with it, in the child of the receiver's gene, mutated at the rate of its key press, and a gamete recombined from the donor's gene and mutated at the rate locked in there |
| `GeneRuns.HaltsIff` | src/main.rs:624 | a badge with a gene halts if and only if it reads, on a scanning screen, a code shorter than the header |
| `BadgeLoop.BadgeApp.GenerateMyNonce` | src/config.rs:312-332 | the retry loop finds the first usable draw |
| `BadgeLoop.BadgeApp.GetPaddedGamete` | src/config.rs:338-351 | the buffer holds the padded gamete, or nothing without a gene; with `GeneRuns.DonatesGamete`, the recombined and mutated one |
| `BadgeLoop.BadgeApp.ReplaceGene` | src/config.rs:365-368 | the old pair becomes the prior one |
| `BadgeLoop.BadgeApp.RevertPrior` | src/config.rs:370-374 | the prior pair, if any, comes back once |
| `BadgeLoop.BadgeApp.HandleKey` | src/ux.rs:1659-1712 | the keys of the exchange |
| `BadgeLoop.BadgeApp.HandleQr` | src/main.rs:607-881 | the whole arm of the message loop |
| `BadgeLoop.BadgeApp.Handle` | src/main.rs:595-935 | every message leaves the badge in the state of the specified step |
| `BadgeLoop.RunBadges` | src/main.rs:595-935 | several badge objects that take the messages of a run end in the states of that run |
| `Cbc.DecryptUndoes` | libraries/crypto/src/cbc.rs:25-47 | decryption undoes encryption for any number of blocks and any block permutation |
| `Cbc.EncryptUndoes` | libraries/crypto/src/cbc.rs:25-47 | and the other way round |
| `Cbc.BlocksAreChained` | libraries/crypto/src/cbc.rs:25-32 | every block is the encryption of its plaintext XORed with the block before it, the first one with the IV |
| `Cbc.SealedIsChained` | src/ctap/crypto_wrapper.rs:32-54 | an embedded IV comes first, and the chain starts with it |
| `Cbc.SealedWithoutIv` | src/ctap/crypto_wrapper.rs:32-54 | without one the first block is encrypted as it is |
| `Cbc.XorBlocksAt` | libraries/crypto/src/util.rs:23-27 | exclusive or of blocks, bit by bit |
| `Cbc.OpenedUndoesSealed` | src/ctap/crypto_wrapper.rs:32-75 | with or without an embedded IV; sealing fails exactly on part of a block |
| `Cbc.SealedUndoesOpened` | src/ctap/crypto_wrapper.rs:57-75 | all that opens is what sealing gives |
| `Cbc.IvXorsFirstBlock` | src/ctap/crypto_wrapper.rs:57-75 | a value XORed into an embedded IV changes only the first plaintext block, by that value |
| `Cbc.CbcEncrypt` | libraries/crypto/src/cbc.rs:25-32 | the in-place loop chains as defined and leaves what is before it alone |
| `Cbc.CbcDecrypt` | libraries/crypto/src/cbc.rs:39-47 | the in-place loop unchains as defined |
| `Cbc.Aes256CbcEncrypt` | src/ctap/crypto_wrapper.rs:32-54 | the wrapper with its length check and IV |
| `Cbc.Aes256CbcDecrypt` | src/ctap/crypto_wrapper.rs:57-75 | the wrapper with its length checks and IV |
| `BigEndian.FromToBytes` | libraries/cbor/src/writer.rs:115-118 | big-endian bytes of a number that fits read back |
| `BigEndian.ToFromBytes` | libraries/cbor/src/reader.rs:120-126 | bytes are the big-endian form of the number they read as |
| `BigEndian.MostSignificantFirst` | libraries/cbor/src/reader.rs:120-126 | the first byte counts most |
| `CborRoundTrip.HeadReadsBack` | libraries/cbor/src/writer.rs:104-119 | every item head reads back |
| `CborRoundTrip.HeadWritesBack` | libraries/cbor/src/reader.rs:111-137 | every accepted head is minimal: it is what the writer makes |
| `CborRoundTrip.ReadsIffWritten` | libraries/cbor/src/reader.rs:51-58 | a byte string is read as a value, without a string head that claims 2^32 bytes or more, if and only if the value is in order and the writer makes that byte string of it |
| `CborRoundTrip.RewrittenIff` | libraries/cbor/src/reader.rs:152-167 | what is read is in order and can be written, and the writer makes the byte string it was read from if and only if no string head claims 2^32 bytes or more; else it makes a shorter one |
| `CborRoundTrip.WrappedStringIsRead` | libraries/cbor/src/reader.rs:152-157 | any content behind a head that claims 2^32 bytes more is read all the same, and is not what the writer makes |
| `CborRoundTrip.WrappedExample` | libraries/cbor/src/reader.rs:152-157 | byte by byte, "ABCDE" behind a head that claims 2^32 + 5 bytes |
| `CborRoundTrip.WritableIff` | libraries/cbor/src/writer.rs:54-102 | a value in order can be written if and only if it is not nested too deeply |
| `CborRoundTrip.WrittenReadsBack` | libraries/cbor/src/reader.rs:51-58 | and then it reads back |
| `CborOrder.OrderIsBytewise` | libraries/cbor/src/values.rs:110-162 | whatever follows them, two values in order compare as their encodings do byte by byte, through arrays, maps and tags; the canonical order of keys is that of section 4.2.1 of RFC 8949 |
| `CborOrder.CompareIsBytewise` | libraries/cbor/src/values.rs:110-162 | the order of two values is the bytewise order of what the writer makes of them |
| `CborOrder.SameValueIff` | libraries/cbor/src/values.rs:170-176 | two values are equal in that order if and only if they are the same |
| `CborOrder.CompareBytesIs` | libraries/cbor/src/values.rs:124-125 | of two byte strings the shorter one, or the one with the smaller byte at the first difference, comes first |
| `CborOrder.TextOrder` | libraries/cbor/src/values.rs:124-125 | of two texts or byte strings the shorter comes first, and of one length the one with the smaller byte at the first difference |
| `CborOrder.AlgBeforeType` | libraries/cbor/src/values.rs:124-125 | "alg" before "type" |
| `CborOrder.MapComesBackSorted` | libraries/cbor/src/writer.rs:54-102 | a map of entries in any order is written if and only if no key is there twice, else refused as such; it reads back as the same entries in the order of the encodings of their keys |
| `CborOrder.ShortHead` | libraries/cbor/src/writer.rs:104-119 | the bytes of a head: the major type in the top three bits, the size in as few bytes as it needs |
| `CborOrder.LongHead` | libraries/cbor/src/writer.rs:104-119 | the same for sizes of four and eight bytes, the most significant byte first |
| `CborOrder.FirstByteTellsKind` | libraries/cbor/src/values.rs:95-108 | the first byte tells the kind of a value |
| `CborOrder.ShortMap` | libraries/cbor/src/writer.rs:54-102 | a map is its head, and its keys and values in turn |
| `Utf8.ValidUtf8Iff` | src/ctap/client_pin.rs:81-97 | bytes are valid if and only if they encode Unicode scalar values, and as many characters are counted; what is not valid counts as none |
| `CredentialId.KeyRoundTripIff` | src/ctap/crypto_wrapper.rs:195-222 | exactly the written form of a private key is read as that key |
| `CredentialId.PaddingInverse` | src/ctap/credential_id.rs:133-160 | padding and unpadding are mutual inverses between lengths 1 to 191 and accepted blocks of 192 |
| `CredentialSafety.SourceIsWritten` | src/ctap/credential_id.rs:173-180 | the CBOR payload is always written, with the computed size |
| `CredentialSafety.SourceRoundTrip` | src/ctap/credential_id.rs:92-129 | the payload gives the same fields back |
| `CredentialSafety.CredentialRoundTripIff` | src/ctap/credential_id.rs:166-268 | an ID is made if and only if its payload fits 191 bytes; it has 241 bytes, and opens to the same fields for the same relying party and to none for another |
| `CredentialSafety.AllowedBlobsFit` | src/api/customization.rs:415-418 | every allowed credBlob leaves the payload at 142 bytes or less |
| `CredentialSafety.LongestBlob` | src/ctap/credential_id.rs:133-141 | the longest blob that fits is 113 bytes with a policy, 115 without |
| `CredentialSafety.LegacyOpens` | src/ctap/credential_id.rs:70-90 | the 112-byte form still opens, to an ECDSA key |
| `CredentialSafety.OnlyAuthenticOpens` | src/ctap/credential_id.rs:213-252 | whatever opens has a valid code, one of the two lengths, and the relying party asked for |
| `CredentialSafety.SourceIsThisMap` | src/ctap/credential_id.rs:92-129 | the payload holds the key as algorithm and seed under 0, the hash of the relying party under 1, and policy and blob, where there are any, under 2 and 3 |
| `CredentialSafety.CredentialIdIs` | src/ctap/credential_id.rs:166-194 | an ID is the version 1, the IV and 192 encrypted bytes, and the code of all that; they decrypt to the payload and the padding, each byte of it its length |
| `CredentialCodec.Buffer.AddPadding` | src/ctap/credential_id.rs:133-141 | extends the vector by the padding, or refuses |
| `CredentialCodec.Buffer.RemovePadding` | src/ctap/credential_id.rs:143-160 | drains the padding, or refuses |
| `CredentialCodec.EncryptToCredentialId` | src/ctap/credential_id.rs:166-194 | builds the ID in place |
| `CredentialCodec.DecryptCredentialId` | src/ctap/credential_id.rs:213-268 | opens the ID with its dispatch on length and version |
| `Apdu.ParsesIffPrinted` | src/ctap/apdu.rs:119-251 | a frame is taken as a value if and only if the value is well formed and the frame is its print |
| `Apdu.ParsedIsWellFormed` | src/ctap/apdu.rs:119-251 | data length equals Lc, and Le is at most 65536 and fits its case |
| `Apdu.ShortFrames` | src/ctap/apdu.rs:119-251 | byte by byte, what the short frames are read as |
| `Apdu.ExtendedFrames` | src/ctap/apdu.rs:119-251 | byte by byte, what the extended frames are read as, with none to three bytes of Le |
| `Pools.SettingsRoundTrip` | src/generator.rs:67-104 | generator settings written and read back are the same, for every value |
| `Pools.CutSettings` | src/generator.rs:83-104 | a file that ends early gives the settings of its lines and the defaults of the others, whether or not its lines end in carriage returns |
| `Pools.Serialize` | src/generator.rs:67-80 | the six lines: length, digits, upper, lower and symbols on or off, and a mark for each symbol |
| `Pools.Deserialize` | src/generator.rs:83-104 | each line or its default |
| `Pools.ReadSymbols` | src/generator.rs:90-102 | the loop over the last line marks at most 32 symbols |
| `Pools.MakePools` | src/generator.rs:106-129 | the pools of the settings |
| `Pools.ToPoolsAreGood` | src/generator.rs:106-129 | at most four pools, none empty, no character shared; none at all exactly when no class on has a character |
| `Pools.PoolsOfferIff` | src/generator.rs:106-129 | which characters some pool has: lowercase letters if and only if lower is on, uppercase ones if upper is, digits if numbers is, and those symbols that are marked if symbols are on |
| `Pools.SymbolsArePunctuation` | src/generator.rs:23-28 | the symbols are the printable ASCII characters that are neither letters nor digits nor spaces |
| `Generator.Handle` | src/generator.rs:141-161 | the bit mask says exactly whether the draw covers every pool |
| `Generator.Generate` | src/generator.rs:133-177 | strict: exactly the first draw that hits every pool; else the first draw |
| `Generator.CoveringDrawExistsIff` | src/generator.rs:133-177 | a covering draw exists, so that the retry loop can end, if and only if there is a pool and the length is at least their number |
| `Generator.SettingsCanGenerateIff` | src/generator.rs:106-177 | the same for any settings of the device |
| `Bits.FullIff` | src/generator.rs:143-155 | a mask is all ones exactly when every bit is set |
| `Bits.XorBitAt` | libraries/crypto/src/util.rs:23-27 | each bit of an exclusive or is set exactly if the two bits differ |
| `Totp.UnpackU64` | src/totp.rs:78-83 | the big-endian bytes of the counter |
| `Totp.GenerateHmacBytes` | src/totp.rs:85-127 | the hash the algorithm names, under the secret, of eight bytes that count the whole steps up to the time, a step of zero read as one; a panic without algorithm |
| `Totp.TruncateIs31Bits` | src/totp.rs:131-135 | truncation stays in bounds and is the low 31 bits of the number at the offset |
| `Totp.CodeIsExactIff` | src/totp.rs:137-144 | a code can be made if and only if the digits are below 64; it spells the truncated hash modulo the true power of ten, with exactly that many digits unless they are zero |
| `Totp.PowIsZeroIff` | src/totp.rs:139 | the power of ten modulo 2^64 is zero if and only if the exponent is 64 or more |
| `Totp.WrappingIsHarmless` | src/totp.rs:137-141 | below 64 the remainder by the wrapped power is the remainder by the power, for every truncated hash |
| `Totp.CodesFollowSteps` | src/totp.rs:85-92 | equal steps give equal codes, different steps different messages |
| `Totp.TotpCodeIs` | src/totp.rs:85-144 | a code is the truncated hash of such a count of steps, printed |
| `Totp.HashesTellSteps` | src/totp.rs:101-127 | with hashes that tell messages apart, two times have the same hash if and only if the same number of steps has passed |
| `Totp.ItemRoundTripIff` | src/actions.rs:1930-1941 | a list item is read back if and only if the secret has no colon, with secret, step, mode, algorithm and digits |
| `Totp.UnreadableFields` | src/totp.rs:167-194 | fields of a list item that cannot be read are taken for six digits, thirty seconds and SHA1 |
| `Totp.StoredCodeIs` | src/totp.rs:167-194 | what is shown for a stored record without a colon in its secret is the code of that record, of its counter or of the time |
| `Totp.StoredCodeFailsIff` | src/totp.rs:167-194 | showing the code of a record fails if and only if the secret has a colon or the digits are 64 to 255 |
| `Bitmap.Pack` | src/bitmaps/pngtorust.py:35-49 | each word holds its 32 pixels, first in the top bit, the last word padded |
| `Bitmap.Rows` | src/bitmaps/pngtorust.py:54-58 | words reversed within each row |
| `Bitmap.Convert` | src/bitmaps/pngtorust.py:24-58 | pixel (x, y) is bit x mod 32 of word 4y + x/32, set exactly when black |

## Left out

- Drawing, menus, animation, power management, factory tests, tours, threads, messages between processes.
- The free text shown beside a password item; running out of memory in a reload; edits
  that the user aborts, or that fail in storage, after the entry left the cache; failing database calls in user
  actions.
- One list stands for the mode whose entries a removal takes and for the cached mode an insertion uses
  (`src/actions.rs:587`, `1065`), which can lag behind the mode on the screen.
- The agreement of store and cache for one-time passwords, whose edit returns the entry under the old key
  until the next reload.
- Sharing of one database by several bases (`basis`), and write-back timing (`sync`).
- UTF-8 decoding of record texts and Unicode lowercasing: a text is given or is malformed, and lowercasing is
  any function on names.
- `process_hmac_secret`, enterprise attestation beyond its switch, and the vendor configuration commands.
- What the authenticator answers besides its status: retry counts, public keys, the encrypted token.
- `Platform.Platform.DecrPinRetries`: a failed write leaves the old entry or none, but not an entry that was created and stayed empty, whose later reads fail (`libraries/persistent_store/src/store.rs:289-301`).
- `Platform.Platform.SetPin`: the same.
- `Platform.Platform.SetMinPinLengthRpIds`: the same, and the serialization of the list does not fail.
- `AuthenticatorRuns.ResetAuthenticator`: the key list is erased in one call, not key by key.
- `GeneRuns.ExchangeCompletesIff`: the four steps of the two badges follow each other, without others between them.
- `Generator.Generate`: the stream of draws is finite and has a covering draw when strict; when one exists at all is `CoveringDrawExistsIff`.
- `Generator.Handle`: at most 30 pools, because the mask is a 32-bit integer; the device has at most four.
- Once-only use of a gene response, the once-per-step timing of screens, and what `filtered_list` shows when nothing matches: the code does not promise them.
- Key derivation and signatures of credentials, and everything else a credential is used for.
- CBOR maps that the writer has to sort inside the keys of maps that it has to sort.
- The dialogs of an edit that fill in the password itself (`src/actions.rs:911-1054`), from BIP39 words or the
  generator: a form has the password that results.
- The HOTP flag, notes and use counts across backup and restore, which the code does not carry.
- What becomes of the rest of a longer value when a shorter one is written over it without a deletion before.
- Extended APDUs of case 2, which the parser does not take.
- Dithering of grey images in the bitmap converter.
