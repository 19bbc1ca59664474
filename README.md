# pants storage engine — a Dafny model

This project models the storage engine of *pants*, a password manager. The GUI and CLI front ends
are not modelled. The engine is made of:

- **Field lists.** `Store` and `Changes` (`src/store.rs`) and `Entry` (`src/vault/entry.rs`) are
  ordered lists of `(field, value)` pairs. Their operations are overwrite-or-append, first-match
  lookup, removal, swap and move by last-found position, and the `Store::update(Changes)` merge.
  The shared list logic lives once, in module `FieldLists`; each class reassigns its list.
- **The vault and its schema.** `Vault` (`src/vault/mod.rs`) is an ordered map from entry name
  to entry, and its schema projection (`src/vault/schema.rs`) drops the secret values.
  `Info` (`src/info.rs`), the older `Schema` (`src/schema.rs`) and `Reads` (`src/reads.rs`)
  are the other maps. BTreeMap key order is modelled in module `Ordering`.
- **The transaction vocabulary.** `Action` and its inverse and `Record` (`src/action.rs`),
  `Commands` (`src/command.rs`), and the expansion of commands into `Operations`
  (`src/operation.rs`).
- **Encrypted envelopes.** `PasswordEncrypted` (`src/vault/encrypted.rs`) is an encrypted
  payload plus the salt its key was derived from.
- **The vault handler** (`src/vault/interface.rs`). This is a write-ahead protocol over the
  files of one save directory: the vault file, the schema file, timestamped record files and
  timestamped backup files.
  - Every password-taking request opens the vault and recovers a pending record.
  - It then runs a transaction, a backup, a key rotation or a restore.
  - Module `VaultProtocol` states each step as a function from the files before to the files
    after and a result.
  - Module `Interfaces` holds the classes `VaultHandler` and `VaultInterface`, whose methods
    update a `FileStore` and are proved equal to those functions.
  - Modules `HandlerFacts` and `Recovery` prove what the steps write and keep, and that a
    transaction interrupted at any write boundary is recovered on the next open. Writes are
    modelled as atomic; the source's truncating write is a finding.
- **The vault registry** (`src/vault/manager.rs`). `VaultManager` maps vault names to save
  directories, persists the map in a configuration file, and forwards vault messages.
- **File naming** (`src/file.rs`). Paths are `<base>/<name>/<name>.json` or
  `<base>/<name>/<name>-<timestamp>.json`. Stems are parsed back at the first `-`, `last` folds
  to the greatest timestamp, and `all` collects every parsable timestamp.
- **The password generator** (`src/password.rs`). Character classes have minimum and maximum
  counts, `check` tests feasibility with saturating sums, and `generate` draws the required
  characters, fills up to the length, then shuffles.

## Model notes

**Opaque collaborators.** Several bodies are not part of this model: `Vault::new`,
`Vault::transaction`, `Vault::apply_record` and `Vault::schema`, the AES-GCM cipher and the
Argon2 key derivation.
- They are the fields of the datatype `VaultProtocol.Env`.
- Properties of the libraries appear only as lemma preconditions, never as facts:
  - `RoundTrips`: decryption with the sealing key gives the payload back.
  - `WrongKeyFails`: decryption with another key fails.
  - `SaltsSeparate`: different salts give different keys.
  - `NeverFails`: encryption succeeds.

**Randomness and clocks.** Random salts and clock readings are the fields of `Draws`. The
password generator's random picks and shuffle are nondeterministic choices (`:|`).

**Files.** The file system is a map from path to typed contents held by `Storage.FileStore`.
- Writes and deletes of paths in a `locked` set fail and change nothing.
- A write replaces the file whole. The source's write truncates first, so a failure between
  `File::create` and `write_all` leaves a partial file; that case is modelled only in the
  findings (`HandlerFindings.TruncatedVaultStrands`, `HandlerFindings.TruncatedRecordStrands`).
- A file that exists but does not hold the expected kind of contents stands for one whose JSON
  does not deserialize. The source unwraps that deserialization, so the model yields
  `Err(Panic)`.

**Panics.** Every panic of the source (`unwrap`, `expect`) is the result `Err(Panic)`.

## Model

| member | source | states |
|---|---|---|
| FieldLists.Names | src/vault/entry.rs:28-30 | the field names, one per pair, in stored order |
| FieldLists.FirstIndex | src/store.rs:93-100 | the index of the first pair with the name, None exactly when no pair has it |
| FieldLists.Lookup | src/store.rs:84-91 | None exactly when the name is absent, else the value of the first pair with that name |
| FieldLists.Find | src/store.rs:84-91 | the scanning loop returns exactly the first-match lookup |
| FieldLists.Position | src/store.rs:103 | the `position` loop returns exactly the first index of the name |
| FieldLists.LastIndexOr0 | src/store.rs:171-180 | the index of the last pair with the name (no later pair has it), or 0 when the name is absent |
| FieldLists.LastPositions | src/store.rs:171-180 | the enumerate loop leaves each position at the last match of its name, or at 0 |
| FieldLists.IndexOf | src/vault/entry.rs:49 | the first index holding the element, None exactly when it is absent |
| FieldLists.UpsertExisting | src/store.rs:76-82 | an existing name is overwritten at its first index; length and names are kept |
| FieldLists.UpsertAbsent | src/store.rs:76-82 | an absent name is appended as the last pair |
| FieldLists.UpsertLookupSame | src/store.rs:76-82 | after the insert, lookup of the name gives the inserted value |
| FieldLists.UpsertLookupOther | src/store.rs:76-82 | the insert leaves the lookup of every other name unchanged |
| FieldLists.UpsertUnique | src/vault/entry.rs:77-83 | inserting keeps the field names unique if they were |
| FieldLists.WithoutRemovesFirst | src/store.rs:102-105 | removal returns the first matching pair and removes exactly that one (length minus one, multiset minus it); an absent name changes nothing |
| FieldLists.WithoutUnique | src/vault/entry.rs:84-87 | with unique names, after removal the name is gone and names stay unique |
| FieldLists.UpsertThenWithout | src/store.rs:76-105 | removing a freshly appended name gives the list back |
| FieldLists.SwapByNameTwice | src/store.rs:170-182 | with unique names, swapping the same two names twice restores the list |
| FieldLists.SwapPreserves | src/store.rs:181 | a swap exchanges the two positions, keeps every other position, the length and the multiset |
| FieldLists.MovePreserves | src/store.rs:194-196 | remove-then-insert puts the moved pair at the target index and keeps the length and multiset; removing it again gives the original minus the moved pair |
| Stores.Store.Default | src/store.rs:43-47 | the default store is empty |
| Stores.Store.constructor | src/store.rs:69-74 | `Store::new` holds exactly the given pairs |
| Stores.Store.Password | src/store.rs:51-56 | one pair, and looking up "Password" gives the value |
| Stores.Store.UsernamePassword | src/store.rs:57-68 | two pairs in order, each name looking up its value |
| Stores.Store.Insert | src/store.rs:76-82 | the list becomes the overwrite-or-append of the pair |
| Stores.Store.Get | src/store.rs:84-91 | the first-match lookup |
| Stores.Store.Remove | src/store.rs:102-105 | returns the first matching pair and removes exactly it |
| Stores.Store.Join | src/store.rs:107-111 | the loop inserts every pair of the extension in order |
| Stores.Store.Update | src/store.rs:113-122 | a fresh store holding the merge of this store with the changes; the store itself is untouched |
| Stores.MergeIsKept | src/store.rs:113-122 | with unique change names, the insert loop equals the filtered list of resolved changes |
| Stores.KeptFromChanges | src/store.rs:113-122 | each field of the result is named in the changes, with the value the change sets or, for None, the old value |
| Stores.KeptInChangesOrder | src/store.rs:113-122 | the result's fields follow the order of the changes |
| Stores.KeptUnique | src/store.rs:113-122 | the result's field names are unique |
| Stores.KeptComplete | src/store.rs:113-122 | a change that sets a value or names an existing field appears in the result |
| Stores.KeptLookup | src/store.rs:113-122 | a looked-up field gives the change's Some value, else the old value, else None; fields not named in the changes are dropped |
| Stores.MergeLookup | src/store.rs:113-122 | the same lookup law and unique names, for the merge as the source computes it |
| Stores.Blank | src/store.rs:132-135 | the field names are exactly the given fields and every value is None |
| Stores.Changes.constructor | src/store.rs:132-139 | `fields()` of new changes gives back the fields, with no value set |
| Stores.Changes.Insert | src/store.rs:141-147 | the list becomes the overwrite-or-append of the pair with Some(value) |
| Stores.Changes.Remove | src/store.rs:166-169 | returns the first matching pair and removes exactly it |
| Stores.Changes.Swap | src/store.rs:170-182 | swaps the pairs at the last positions of the two names (0 when absent); length and multiset are kept |
| Stores.Changes.MoveTo | src/store.rs:183-197 | moves the pair at `first`'s last position to `second`'s; length and multiset are kept |
| Stores.Changes.Unchanged | src/store.rs:199-208 | true when any value is set; otherwise true exactly when the names equal the fields |
| Stores.UnchangedAsWrittenMisreports | src/store.rs:199-208 | a single set Password field is reported unchanged although the merge changes the store |
| Stores.UnchangedMeansNoEdit | src/store.rs:199-208 | with no value set and the names of the store, the merge gives back the store itself |
| Entries.Entry.Default | src/vault/entry.rs:20-25 | no values, empty description, no urls |
| Entries.Entry.FromData | src/vault/entry.rs:20-25 | the entry holds exactly the given values, description and urls |
| Entries.Entry.AddUrl | src/vault/entry.rs:45-47 | the url is appended; values and description are untouched |
| Entries.Entry.RemoveUrl | src/vault/entry.rs:48-53 | the urls become the swap-remove of the first occurrence; the rest is untouched |
| Entries.DropUrlEffect | src/vault/entry.rs:48-53 | an absent url changes nothing; a present one is removed once and the last url fills its slot |
| Entries.SwapRemoveEffect | src/vault/entry.rs:50 | one element fewer, the last element moved into the gap, multiset minus the removed one |
| Entries.Entry.Get | src/vault/entry.rs:61-68 | the first-match lookup |
| Entries.Entry.AddValue | src/vault/entry.rs:77-83 | the values become the overwrite-or-append of the pair; description and urls are untouched |
| Entries.Entry.RemoveValue | src/vault/entry.rs:84-87 | returns the first matching pair and removes exactly it |
| Entries.Entry.SwapValues | src/vault/entry.rs:88-100 | swaps the pairs at the last positions of the two names (0 when absent); multiset kept |
| Entries.Entry.MoveValues | src/vault/entry.rs:101-115 | moves the pair at `first`'s last position to `second`'s; multiset kept |
| Vaults.Vault.Default | src/vault/mod.rs:13-16 | the default vault has no entries |
| Vaults.Vault.FromData | src/vault/mod.rs:13-16 | the vault holds exactly the given entries |
| Vaults.Vault.Insert | src/vault/mod.rs:19-21 | returns the previous entry for the key; the key maps to the new entry, the others are untouched |
| Vaults.Vault.Get | src/vault/mod.rs:23-25 | Some exactly when the key is present, with its entry |
| Vaults.Vault.GetMut | src/vault/mod.rs:27-29 | Some exactly when `get` is, with the same entry |
| Vaults.Vault.Remove | src/vault/mod.rs:31-33 | returns the stored entry; the key is gone and the others are untouched |
| Vaults.InsertThenRemove | src/vault/mod.rs:19-33 | inserting a new key then removing it restores the map, and the inserted entry is found in between |
| Vaults.Vault.IsEmpty | src/vault/mod.rs:35-37 | true exactly when no key is present |
| Vaults.Vault.Keys | src/vault/mod.rs:39-41 | every key exactly once, in ascending order |
| Ordering.SortedKeys | src/vault/mod.rs:39-41 | a strictly ascending sequence holding exactly the set's elements |
| Ordering.SortedUnique | src/vault/mod.rs:39-41 | two strictly ascending sequences with the same elements are equal, so the key order is determined |
| Ordering.SortKeys | src/vault/manager.rs:79-85 | the selection loop returns the ascending key sequence |
| VaultSchemas.SchemaShape | src/vault/schema.rs:19-38 | the schema has the vault's keys, and each entry lists that entry's field names in order |
| VaultSchemas.SchemaHidesValues | src/vault/schema.rs:19-26 | vaults that differ only in secret values have the same schema |
| VaultSchemas.SchemaInsert | src/vault/schema.rs:29-38 | the schema of an insert is the schema with the projected entry inserted |
| VaultSchemas.SchemaRemove | src/vault/schema.rs:29-38 | the schema of a removal is the schema without the key |
| Actions.InverseSwaps | src/action.rs:20-30 | Noop inverts to Noop; Replace keeps its key and swaps start and end |
| Actions.InverseInvolution | src/action.rs:20-30 | inverting twice gives the action back |
| Actions.Record.constructor | src/action.rs:47-56 | a new record has no actions |
| Actions.Record.Push | src/action.rs:58-60 | the action is appended and earlier actions are kept in order |
| Commands.Commands.constructor | src/command.rs:24-33 | a new command list is empty |
| Commands.Commands.FromSeq | src/command.rs:45-49 | the list is kept as given |
| Commands.Commands.FromCommand | src/command.rs:51-57 | a one-element list |
| Commands.Commands.Push | src/command.rs:35-37 | the command is appended |
| Operations.Operations.constructor | src/operation.rs:23-26 | a new operation list is empty |
| Operations.Operations.FromSeq | src/operation.rs:47-51 | the list is kept as given |
| Operations.Operations.Push | src/operation.rs:28-30 | the operation is appended |
| Operations.FromCommands | src/operation.rs:53-71 | the loop yields the expansion of the whole command list |
| Operations.ExpandAppend | src/operation.rs:53-71 | the expansion of a concatenation is the concatenation of the expansions |
| Operations.ExpandCons | src/operation.rs:53-71 | a list expands to its first command's operations followed by the rest's |
| Operations.ExpandLength | src/operation.rs:55-69 | the output length is one per Read, two per Update and one per Delete |
| Operations.ExpandWritesFollowReads | src/operation.rs:59-65 | every Set carrying a value is immediately preceded by a Get of the same key |
| Operations.ReadBecomesGet | src/operation.rs:80-93 | Read("balls") expands to Get("balls") |
| Operations.DeleteBecomesSet | src/operation.rs:117-131 | Delete("balls") expands to Set("balls", None) |
| Operations.UpdateBecomesGetSet | src/operation.rs:95-115 | Update expands to Get then Set with the value |
| Reads.Reads.constructor | src/reads.rs:8-19 | a new read set holds no keys |
| Reads.Reads.Insert | src/reads.rs:21-23 | returns the previous value; the key maps to the new value and every other key is unchanged |
| Reads.Reads.Remove | src/reads.rs:25-27 | returns the stored value; the key is gone and every other key is unchanged |
| Infos.Info.constructor | src/info.rs:7-10 | the default info is empty |
| Infos.Info.FromMap | src/info.rs:21-25 | the map is wrapped unchanged |
| Infos.Info.Get | src/info.rs:13-15 | Some exactly when the name is present, with its schema |
| Infos.Info.Insert | src/info.rs:16-18 | afterwards the name gives the inserted schema and every other name is unchanged |
| Infos.Info.Pairs | src/info.rs:27-34 | iteration yields the pairs in ascending name order |
| Infos.PairsInNameOrder | src/info.rs:27-34 | one pair per entry, each with its stored schema, names strictly ascending, every entry present |
| Infos.Info.Display | src/info.rs:36-43 | the text is one "name: schema" line per entry in name order |
| Infos.RenderLines | src/info.rs:38-41 | the loop writes exactly the rendering of the pairs |
| Schemas.New | src/schema.rs:11-13 | the map is wrapped unchanged |
| Schemas.Get | src/schema.rs:15-17 | Some exactly when the key is present, with its value |
| Schemas.Keys | src/schema.rs:19-21 | every key exactly once |
| Schemas.AllInfo | src/schema.rs:23-28 | one "key: value" line per entry, in some enumeration of the keys |
| Schemas.LinesMayCollide | src/schema.rs:26 | for every key and every value holding ": ", a different entry renders the same line |
| Files.FormatDate | src/utils.rs:7-9 | a non-empty string of decimal digits, so it holds no '-' |
| Files.ReadFormatDate | src/utils.rs:11-15 | reading a formatted timestamp gives it back |
| Files.FormatDateInjective | src/utils.rs:7-9 | different timestamps format differently |
| Files.Now | src/file.rs:154-164 | a timestamped file is named after its kind and stamped with the clock reading |
| Files.SplitOnce | src/file.rs:175 | None exactly when the separator is absent; else the text is prefix + separator + suffix with no separator in the prefix |
| Files.SplitStem | src/file.rs:174-176 | splitting `<name>-<rest>` at the first '-' gives back name and rest when the name has no '-' |
| Files.ParseTimestampedPath | src/file.rs:127-133 | a timestamped path's stem splits into its name and formatted timestamp, which reads back to the timestamp |
| Files.PathsDistinct | src/file.rs:240-262 | the four kinds of file never share a path, and a timestamped path determines its timestamp |
| Files.TimestampedPathMatches | src/file.rs:169 | every timestamped path matches its kind's glob |
| Files.LastFromPanics | src/file.rs:172-189 | the fold panics exactly when some listed name does not parse |
| Files.LastFromIsMax | src/file.rs:172-189 | the fold's result is the seed or a listed stamp, at least the seed and every listed stamp |
| Files.LastIsMax | src/file.rs:166-190 | `last` panics exactly on an unparsable name, is None exactly when nothing is listed, else is the greatest listed stamp |
| Files.LastOrderIndependent | src/file.rs:166-190 | `last` does not depend on the order of the listing |
| Files.All | src/file.rs:192-211 | the loop collects exactly what the reference fold does |
| Files.AllPanicPersists | src/file.rs:201-202 | once a name without '-' has been met, `all` panics |
| Files.AllKeepsParsed | src/file.rs:204-208 | when every name splits, `all` succeeds and holds exactly the parsable stamps, malformed ones skipped |
| Files.GlobNamesSplit | src/file.rs:195-202 | names matching a kind's glob always contain the '-' that `split_once` needs |
| Storage.ReadEnvelope | src/file.rs:70-90 | a missing file is a read error, a file of the wrong kind a panic, else its envelope |
| Storage.ListingWellFormed | src/file.rs:166-190 | a glob listing parses exactly when every matching file is a stamped name |
| Storage.ListingStamps | src/file.rs:166-190 | a listing's stamps are exactly the stamps of the matching files |
| Storage.LastOfListing | src/file.rs:166-190 | `last` over any listing of the directory is the latest stamp on disk |
| Storage.FileStore.constructor | src/file.rs:24-79 | the store holds the given files and locked paths |
| Storage.FileStore.Write | src/file.rs:61-68 | a locked path fails with a write error and changes nothing; otherwise the path holds the contents (an atomic replacement) |
| Storage.FileStore.Delete | src/file.rs:47-50 | a missing or locked path fails and changes nothing; otherwise exactly that path is removed |
| Storage.FileStore.Read | src/file.rs:70-78 | the contents, or a read error for a missing path |
| Storage.FileStore.Exists | src/file.rs:226-228 | true exactly when the path is present |
| Storage.FileStore.Glob | src/file.rs:197-199 | the listing holds exactly the files matching the kind's glob |
| Encryption.Seal | src/secure.rs:46-58 | an encryption error exactly when the cipher fails, else the cipher's output |
| Encryption.Unseal | src/secure.rs:32-44 | a decryption error exactly when the cipher fails, else the plaintext |
| Encryption.SealUnseal | src/secure.rs:32-58 | under the round-trip hypothesis, unsealing with the sealing key gives the payload |
| Encryption.SealWrongKey | src/secure.rs:32-58 | under the wrong-key hypothesis, unsealing with another key is a decryption error |
| Encryption.PasswordEncrypted.constructor | src/vault/encrypted.rs:11-15 | holds the given data and salt |
| Encryption.PasswordEncrypted.Contents | src/vault/encrypted.rs:17-25 | `salt()` and `data()` return the stored fields |
| Encryption.PasswordEncrypted.Update | src/vault/encrypted.rs:40-44 | the salt never changes; on success the data is the new ciphertext, on failure the error is returned and the data is kept |
| Encryption.New | src/vault/encrypted.rs:30-34 | a fresh envelope with the drawn salt and the empty payload sealed under the key from that salt, or the encryption error |
| Encryption.FromPayload | src/vault/encrypted.rs:36-38 | the given salt and the payload sealed under the given key, or the encryption error |
| VaultProtocol.LayoutDistinct | src/file.rs:127-146 | vault, schema, record and backup paths of a directory are pairwise different, and only record paths match the record glob |
| HandlerFacts.OpenFacts | src/vault/interface.rs:134-164 | the key comes from the vault file's salt and a decryption failure is the error; without a file the new vault and fresh salt are only in memory; the record has its own fresh salt |
| HandlerFacts.SaveFacts | src/vault/interface.rs:186-191 | keeps salt, key and record; on success writes the vault under the current key and then that vault's schema; touches no other file; an encryption failure or a vault file that cannot be created writes nothing |
| HandlerFacts.BackupFacts | src/vault/interface.rs:193-201 | writes one new file with the vault under the current salt and key, which opens to the vault again; the handler and every other file are untouched |
| HandlerFacts.TransactionFacts | src/vault/interface.rs:203-212 | on success the record file is gone and vault and schema hold the applied record; after a failure at a later write the record stays on disk and opens to the record; a failure to seal or to create the record file changes nothing |
| HandlerFacts.LoadKeyed | src/vault/interface.rs:128-151 | a loaded handler's key is derived from its vault's salt and the password |
| HandlerFacts.RotateFacts | src/vault/interface.rs:97-106 | the reply names the backup, which opens with the old password; the vault file has the fresh salt and opens with the new password, both to the same contents |
| Recovery.TransactionWrites | src/vault/interface.rs:203-212 | the transaction's files after each failure point are the first one, two or all four writes of the write-ahead sequence |
| Recovery.LatestOfNone | src/vault/interface.rs:166-172 | with no record file there is nothing to recover |
| Recovery.LatestOfOne | src/vault/interface.rs:166-172 | with exactly one record file, that one is recovered |
| Recovery.Reopen | src/vault/interface.rs:140-144 | a vault file that holds a vault under the password opens to that vault |
| Recovery.SaveHolds | src/vault/interface.rs:186-191 | a save that may write leaves a vault file holding the vault and adds no record file |
| Recovery.RecoverOne | src/vault/interface.rs:166-184 | a single pending record is applied, saved and deleted, and the files then hold the recovered vault |
| Recovery.CrashRecovery | src/vault/interface.rs:166-212 | after a crash at any write boundary of a transaction the next open succeeds with no record left, holding the old vault, the applied one, or (after a crash between the writes) the record applied twice |
| Recovery.CrashAtomic | src/vault/interface.rs:166-212 | when applying a record is idempotent, a crash at any write boundary leaves either the old vault or the fully applied one |
| Interfaces.ReadSealed | src/vault/interface.rs:141 | reads the envelope as `ReadEnvelope` does |
| Interfaces.VaultHandler.constructor | src/vault/interface.rs:153-163 | the handler holds exactly the given fields |
| Interfaces.VaultHandler.Save | src/vault/interface.rs:186-191 | the new files and handler state are those of the save step |
| Interfaces.VaultHandler.ApplyUnfinished | src/vault/interface.rs:174-184 | the new files and state are those of the recovery of a given record file; salt envelope and key object are kept |
| Interfaces.VaultHandler.CheckUnfinished | src/vault/interface.rs:166-172 | the new files and state are those of recovering the latest record file, if any |
| Interfaces.VaultHandler.Backup | src/vault/interface.rs:193-201 | the new files are those of the backup step and the handler is unchanged |
| Interfaces.VaultHandler.Transaction | src/vault/interface.rs:203-212 | the new files, state and reads are those of the transaction step |
| Interfaces.GetInterface | src/vault/interface.rs:134-164 | fails exactly when opening fails, with its error; else a fresh handler holding the opened state, with nothing written |
| Interfaces.LoadInterface | src/vault/interface.rs:128-132 | the files and handler (or error) are those of open-then-recover |
| Interfaces.OneCommandRequest | src/vault/interface.rs:74-91 | a Get, Update or Delete request leaves the files and reply of load-then-transaction |
| Interfaces.LoadAndBackup | src/vault/interface.rs:92-94 | the files, handler and backup stamp of load-then-backup |
| Interfaces.BackupRequest | src/vault/interface.rs:92-96 | the files and reply of the backup request |
| Interfaces.RotateRequest | src/vault/interface.rs:97-106 | the files and reply of the rotation |
| Interfaces.RestoreRequest | src/vault/interface.rs:107-123 | the files and reply of the restore as written |
| Interfaces.HandlerReceive | src/vault/interface.rs:72-126 | each password-taking message leaves the files and reply of its protocol step |
| Interfaces.VaultInterface.constructor | src/vault/interface.rs:37-41 | the interface is bound to the given directory and store |
| Interfaces.VaultInterface.GetSchema | src/vault/interface.rs:50-56 | the schema file's schema, the default empty schema when it cannot be read, a panic when it is malformed |
| Interfaces.VaultInterface.BackupFileAll | src/vault/interface.rs:45 | the listed stamps are exactly those of the backup files on disk |
| Interfaces.VaultInterface.Receive | src/vault/interface.rs:42-48 | Schema and BackupList are answered without a password and write nothing; every other message is the handler's |
| HandlerFindings.FirstRequest | src/vault/interface.rs:139-151 | the first request on a new directory opens an in-memory vault; if the vault write fails, the only file left is its record |
| HandlerFindings.FirstTransactionStrands | src/vault/interface.rs:203-207 | when the first vault write fails, the record left on disk is sealed under a key nobody can derive again, and every later open fails |
| HandlerFindings.FirstTransactionRecoversWithOwnKey | src/vault/interface.rs:203-207 | sealing the record with the key from its own salt lets the next open recover it |
| HandlerFindings.RestoreKeepsCurrent | src/vault/interface.rs:107-123 | after a restore the vault file holds the current contents under the backup password, not the backup's contents |
| HandlerFindings.RestoreIntendedAdoptsBackup | src/vault/interface.rs:107-123 | a restore that adopts the decrypted backup leaves the vault file holding the backup's contents |
| HandlerFindings.TruncatedVaultStrands | src/file.rs:43-64 | a vault write cut off after truncation leaves the record on disk and makes every later open panic, so the record is never applied |
| HandlerFindings.TruncatedRecordStrands | src/file.rs:86-89 | a record write cut off after truncation leaves a record that every later open picks as newest and panics on, with the vault file intact |
| HandlerFindings.AdoptHolds | src/vault/interface.rs:119-121 | adopting a salt and key that match the password and saving leaves the file holding the in-memory vault |
| Managers.NewVaultRegisters | src/vault/manager.rs:36-48 | a taken name is refused with VaultExists and nothing changes; a new one maps to the directory `PathBuf::push` gives for it, nothing else changes, and the reply is Ok exactly when the configuration is written |
| Managers.DeleteUnregisters | src/vault/manager.rs:49-59 | the name is unregistered exactly when the vault delete succeeds; other names are untouched; an unknown name is VaultDoesNotExist |
| Managers.DeleteEmptyUnregisters | src/vault/manager.rs:60-70 | the same for the password-less delete of an empty vault |
| Managers.ListNames | src/vault/manager.rs:79-85 | the registered names, strictly ascending, and nothing changes |
| Managers.PiecesJoin | src/vault/manager.rs:41 | splitting a name at its separators loses nothing: the pieces join back to the name |
| Managers.VaultDirPlacement | src/vault/manager.rs:40-42 | a relative name stays under the base, a plain name is exactly one component below it, and an absolute name starts at the root |
| Managers.StepKeepsLayout | src/vault/manager.rs:36-70 | every registered name keeps mapping to the directory `push` gives for it |
| Managers.LaidSeparates | src/vault/manager.rs:40-42 | when every registered name is one plain component, two registered vaults never share a vault, schema or record path |
| Managers.NewVaultAliases | src/vault/manager.rs:36-48 | `NewVault("a")` then `NewVault("a/")` both succeed, and the two names share the vault and schema files |
| Managers.CheckedStepSeparates | src/vault/manager.rs:36-70 | a registry that refuses names other than one plain component keeps every vault in a directory of its own |
| Managers.PersistedTracks | src/vault/manager.rs:43-65 | with a writable configuration the file follows the map; otherwise a changed map is reported as a write error |
| Managers.InfoPanics | src/vault/manager.rs:86-95 | a malformed schema file in any registered vault makes Info panic |
| Managers.InfoCoversRegistry | src/vault/manager.rs:86-95 | Info fails exactly on a malformed schema file; otherwise it has one schema per registered vault, empty for a vault without one |
| Managers.VaultManager.constructor | src/vault/manager.rs:29-31 | the loaded map is both the in-memory and the persisted registry |
| Managers.VaultManager.SaveConfig | src/vault/manager.rs:43 | registry, configuration file and reply are those of persisting |
| Managers.VaultManager.RegisteredNames | src/vault/manager.rs:88 | each registered name exactly once |
| Managers.VaultManager.AskSchema | src/vault/manager.rs:89-90 | the vault's Schema reply, or a panic; nothing is written |
| Managers.VaultManager.CollectInfo | src/vault/manager.rs:86-95 | the loop's reply is the Info of the registry; nothing is written |
| Managers.VaultManager.Receive | src/vault/manager.rs:33-97 | registry messages follow the registry step; vault messages go to the named vault's interface or fail with VaultDoesNotExist, never changing the map; Info collects schemas |
| Passwords.UpperCharset | src/password.rs:85 | exactly A-Z, 26 characters |
| Passwords.LowerCharset | src/password.rs:86 | exactly a-z, 26 characters |
| Passwords.NumberCharset | src/password.rs:87 | exactly 1-9, without 0 |
| Passwords.SymbolCharset | src/password.rs:93-96 | 26 symbols, no letter, digit, quote or backslash |
| Passwords.SatSumIsCappedSum | src/password.rs:60-68 | the saturating fold is the true sum capped at `usize::MAX` |
| Passwords.SatSumCovers | src/password.rs:60-68 | no summand exceeds the saturating sum |
| Passwords.Choice.Exactly | src/password.rs:133-139 | min and max are both the count |
| Passwords.Choice.AtLeast | src/password.rs:141-147 | min is the count and max is `usize::MAX` |
| Passwords.Choice.AtMost | src/password.rs:149-155 | min is 0 and max is the count |
| Passwords.Choice.Clone | src/password.rs:117-122 | an independent copy with the same counts and class |
| Passwords.NewChoice | src/password.rs:125-131 | None exactly when max < min, else the choice with those counts |
| Passwords.Choice.Decrement | src/password.rs:165-172 | min and max each drop by one, never below zero |
| Passwords.Choice.Step | src/password.rs:174-181 | None and no change when max is 0; else a character of the class, with the counts decremented |
| Passwords.Choice.GetRequired | src/password.rs:183-192 | exactly the original min characters, all of the class; min ends at 0 and max drops by the original min |
| Passwords.FeasibleMeans | src/password.rs:60-68 | `check` passes exactly when the minimums fit the length (or overflow at length `usize::MAX`) and the maximums reach it |
| Passwords.CloneAll | src/password.rs:36 | fresh pairwise distinct copies with the same counts and classes |
| Passwords.DrawRequired | src/password.rs:37-39 | draws the sum of the minimums, each class exactly its min times, each character from the class that drew it; every clone ends with min 0 and max reduced by its min |
| Passwords.ExtendRequired | src/password.rs:38 | appends one class's required characters and records their class |
| Passwords.ActiveOnly | src/password.rs:41 | the filtered list is exactly the clones with room left, in their original (ascending index) order |
| Passwords.StepClone | src/password.rs:45 | the chosen clone yields a character of its class and has one unit less room |
| Passwords.FillStep | src/password.rs:44-50 | one more character; the owed count drops by one and the bookkeeping of rooms and classes is kept |
| Passwords.FillRemaining | src/password.rs:43-51 | exactly `remaining` characters, each from a class with room, and no class beyond its room |
| Passwords.Shuffle | src/password.rs:53 | a permutation of the characters, keeping each character's class |
| Passwords.DrawClones | src/password.rs:35-53 | exactly `length` characters, each class drawn between its min and max times |
| Passwords.Draw | src/password.rs:33-54 | the same on fresh copies of the choices, which stay untouched |
| Passwords.DefaultChoices | src/password.rs:18-23 | upper, lower, number and symbol, each at least one |
| Passwords.DefaultCounts | src/password.rs:15-27 | four classes of at least one character admit 32 characters |
| Passwords.Password.constructor | src/password.rs:30-32 | holds the given choices and length |
| Passwords.Password.Default | src/password.rs:15-27 | the four classes at least once each, length 32, and it passes `check` |
| Passwords.Password.Check | src/password.rs:60-68 | the loop's saturating sums decide `min <= length <= max` |
| Passwords.Password.Generate | src/password.rs:33-58 | None exactly when `check` fails; else `length` characters, each from its class, each class drawn between its min and max times |

## Left out

- The GUI and the CLI front ends are not part of this model.
- The legacy handler `src/vault_encrypted.rs` and everything under `src.old/` are not part of this model.
- The `From<PasswordSpec>` and `From<Generate>` impls of `src/password.rs` are not modelled. They refer to types that are not part of this model.
- AES-256-GCM, Argon2 and bincode are opaque functions of `Env`. Their properties are explicit hypotheses (`RoundTrips`, `WrongKeyFails`, `SaltsSeparate`, `NeverFails`), never proved.
- `Vault::new`, `Vault::transaction`, `Vault::apply_record` and `Vault::schema` are not part of this model. They are opaque functions of `Env`.
- Recovery.CrashAtomic: takes idempotence of applying a record as a hypothesis, since that body is not part of this model.
- `VaultInterface::delete` and `delete_empty` are not part of this model. Their outcomes are given by `Managers.Removal`.
- `SaveDir` is not part of this model. A save directory is a path, and its four files are the paths of `VaultProtocol`.
- Salts and clock readings are request parameters (`Draws`); `thread_rng` picks and `shuffle` are nondeterministic choices.
- Encryption is deterministic in the model: the opaque cipher computes the ciphertext and its nonce from the payload and the key, where `Encrypted::encrypt` (src/secure.rs:48) draws a fresh `OsRng` nonce on every call. No property here depends on two encryptions of one payload being equal or different.
- Key derivation (`Encryption.Kdf`) is total. `get_key` (src/secure.rs:90-99) unwraps the base64 decoding of the stored salt and Argon2's result, so a stored salt that is not valid base64 panics in the source, while the model goes on and reports whatever the cipher does with the derived key (a `DecryptionError` in `HandlerFacts.OpenFacts`).
- Encryption.Unseal: a stored nonce of the wrong length, on which `GenericArray::from_slice` (src/secure.rs:36) panics, is folded into the cipher's failure and becomes a `DecryptionError`.
- Encryption.Unseal: a decrypted payload that bincode cannot deserialize, on which `Decrypted::deserialize` (src/secure.rs:27) panics, is likewise folded into the cipher's failure and becomes a `DecryptionError`.
- The file system is a map from paths to typed contents.
  - `create_dir_all` is not modelled.
  - JSON (de)serialisation is the identity on those contents.
  - A failed write or delete is a path in the `locked` set.
- `ProjectFile::base_path` (the `directories_next` data directory) is a parameter.
- The manager's configuration file is a `writable` flag plus the persisted map. Loading it through figment is not modelled.
- chrono date formatting is modelled as decimal digits of a `nat` timestamp.
  - The model keeps the properties the code relies on: the format is injective, reads back, and contains no `-`.
  - The real calendar format is not modelled.
- `Interfaces.VaultInterface.BackupFileAll` states which stamps are listed, not their order, since the body of `SaveDir::backup_file_all` is not part of this model.
- `Schemas.Keys` and `Schemas.AllInfo` state an enumeration of the keys in unspecified order, as a `HashMap` gives.
- `Vaults.Vault.GetMut` returns the entry's value. Writing through the returned mutable reference is not modelled.
- `Vault::export` (JSON of the entries) is not modelled.
- Entry's iterator accessors (`values`, `values_iter`, `values_mut`, `urls`, `description`) are not modelled; they expose the fields directly.
- Iterating a `Record`, `Commands`, `Operations` or `Info` is the field's own sequence or ascending key order. There is no separate member for it.
- In `VaultManager::receive` for Info, the `if let Ok(Output::Schema(..))` skip never fires: `get_schema` falls back to the default schema. Only a malformed schema file, whose `unwrap` panics, stops Info, and the model yields `Err(Panic)` there.
- Storage.FileStore.Write: writes are atomic. The source truncates the file (`File::create`, src/file.rs:43) before `write_all` (src/file.rs:64), so a full disk or a crash in between leaves a partial file that panics on the next read; this is shown in the findings, not in the operation.
- Recovery.TransactionWrites: the failure points are whole writes; a failure inside a write, which leaves a partial file in the source, is not among them.
- Recovery.CrashRecovery: crashes are taken at write boundaries only. A crash inside the vault or record write leaves a truncated file on which every later open panics (`HandlerFindings.TruncatedVaultStrands`, `HandlerFindings.TruncatedRecordStrands`).
- Recovery.CrashAtomic: as for `Recovery.CrashRecovery`, crashes are taken at write boundaries only.
- HandlerFacts.SaveFacts: a vault or schema write that fails after truncating its file leaves that file partial, not unchanged; only failures before truncation are covered by "writes nothing".
- HandlerFacts.TransactionFacts: likewise, a record, vault or schema write that fails after truncation leaves a partial file; the record then no longer opens.
- Managers.VaultDir: `..` stays a component, while the file system resolves it (and symbolic links), so names such as `x/../a` reach `a`'s directory on disk though the model gives them different paths. Windows path prefixes are not modelled.
- Managers.LaidSeparates: holds only for registries of plain names, which the corrected `Managers.CheckedStep` keeps. The source registers any name, and names such as `a` and `a/`, or an absolute name, alias other directories (see Findings).
- Stores.Changes.Swap: requires non-empty data, because `Vec::swap(0, 0)` on an empty vector panics in the source.
- Stores.Changes.MoveTo: requires non-empty data, because `self.data[0]` on an empty vector panics in the source.
- Entries.Entry.SwapValues: requires non-empty values, for the same panic of `Vec::swap`.
- Entries.Entry.MoveValues: requires non-empty values, for the same panic of indexing.
- Passwords.Password.Generate: requires the true sum of minimums to fit in `usize`. When it does not, `check` passes only for length `usize::MAX`, and the subtraction at `src/password.rs:40` would underflow; that case is not modelled.
- Passwords.Password.Generate: the choices are assumed to satisfy `min <= max <= usize::MAX`, which every constructor of `Choice` establishes.

## Findings

| source | as written | input that shows it | evidently intended | confidence | as-written member | corrected member |
|---|---|---|---|---|---|---|
| src/store.rs:199-208 | `unchanged` returns true as soon as any field holds a value | prior store `[("Password","old")]`, changes `[("Password", Some("new"))]`: reported unchanged, yet the update changes the store | report unchanged only when no value is set and the field list equals the given fields | not executed; medium (no caller in the repository) | Stores.UnchangedAsWrittenMisreports | Stores.UnchangedMeansNoEdit |
| src/vault/interface.rs:203-207 | the record is sealed with the vault key, whose salt exists only in memory until the first save | first Update on a new directory whose vault-file write fails: the record stays on disk, and every later open draws a new salt and fails to decrypt it | seal the record under the key derived from its own salt (`RecordEncrypted::new` at line 139), so recovery does not depend on an unsaved salt | not executed; high | HandlerFindings.FirstTransactionStrands | HandlerFindings.FirstTransactionRecoversWithOwnKey |
| src/vault/manager.rs:40-42 | `NewVault` pushes the name onto the base path without checking it, so names that differ as strings can name one directory, and an absolute name replaces the base | `NewVault("a")` then `NewVault("a/")`: both succeed and share vault.json, schema.json and the record files; `DeleteVault("a/")` then deletes `a`'s vault | refuse a name that is not one plain path component | not executed; high | Managers.NewVaultAliases | Managers.CheckedStepSeparates |
| src/file.rs:43-64 | `write` truncates the file with `File::create` and then calls `write_all`, so a failure or crash in between leaves a partial JSON file, and the next read's `unwrap` (line 88) panics | a transaction interrupted during its vault write, after the record was written: every later open panics on vault.json and the pending record is never applied | write to a temporary file and rename it over the target, so a file is replaced whole or not at all; the crash recovery of the write-ahead record then holds | not executed; medium (needs a full disk or a crash mid-write) | HandlerFindings.TruncatedVaultStrands | Recovery.CrashRecovery |
| src/vault/interface.rs:107-123 | Restore decrypts the backup into `_backup_vault`, drops it, and saves the current vault under the backup's salt and key | any restore of a backup whose contents differ from the current vault: the vault file then holds the current contents | adopt the decrypted backup as the in-memory vault before saving | not executed; high | HandlerFindings.RestoreKeepsCurrent | HandlerFindings.RestoreIntendedAdoptsBackup |
