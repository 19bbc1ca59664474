/**
 * What the write-ahead record buys (src/vault/interface.rs:166-212): a transaction interrupted
 * after any of its file writes is completed when the vault is next opened with the same
 * password. It is stated over the protocol functions, with the cipher's round trip and the
 * absence of encryption failures as explicit hypotheses about the library.
 */
module Recovery {
  import opened Wrappers
  import opened Errors
  import opened Files
  import opened Storage
  import opened Encryption
  import opened Vaults
  import Commands
  import opened VaultProtocol

  /** The cipher never refuses to encrypt. */
  ghost predicate NeverFails<T(!new)>(c: Cipher<T>)
  {
    forall x: T, k: Key :: c.encrypt(x, k).Some?
  }

  /** No record file is left under `dir`. */
  ghost predicate NoRecords(files: FileMap, dir: seq<string>)
  {
    forall p :: p in files ==> !MatchesGlob(p, dir, RECORD)
  }

  /** The file at `p` holds `v`, encrypted under the key from its own salt and `password`. */
  ghost predicate HoldsAt(env: Env, files: FileMap, p: FilePath, password: Password, v: VaultData)
  {
    p in files && files[p].Sealed? &&
    var e := files[p].envelope;
    env.vaults.decrypt(e.data, env.kdf(e.salt, password)) == Some(v)
  }

  /** The vault file holds `v`. */
  ghost predicate Holds(env: Env, files: FileMap, dir: seq<string>, password: Password, v: VaultData)
  {
    HoldsAt(env, files, VaultPath(dir), password, v)
  }

  /** The handler `m` was opened from the vault file of `files` with `password`. */
  ghost predicate OpenedFrom(env: Env, files: FileMap, dir: seq<string>, password: Password, m: Mem)
  {
    VaultPath(dir) in files && files[VaultPath(dir)] == Sealed(m.sealed) &&
    m.key == env.kdf(m.sealed.salt, password) &&
    env.vaults.decrypt(m.sealed.data, m.key) == Some(m.vault)
  }

  /**
   * The files after the first `k` file operations of a transaction that goes through:
   * write the record, write the vault, write the schema, delete the record.
   */
  ghost function AfterWrites(env: Env, keying: Keying, dir: seq<string>, files: FileMap, m: Mem,
                             commands: seq<Commands.Command>, k: nat): FileMap
    requires NeverFails(env.records) && NeverFails(env.vaults)
    requires k <= 4
  {
    var record := env.transact(m.vault, commands).1;
    var after := env.applyRecord(m.vault, record);
    var path := RecordPath(dir, m.recordStamp);
    var f1 := files[path := Sealed(Envelope(env.records.encrypt(record, RecordKey(env, keying, m, m.record.salt)).value, m.record.salt))];
    var f2 := f1[VaultPath(dir) := Sealed(Envelope(env.vaults.encrypt(after, m.key).value, m.sealed.salt))];
    var f3 := f2[SchemaPath(dir) := SchemaDoc(env.schemaOf(after))];
    if k == 0 then files else if k == 1 then f1 else if k == 2 then f2 else if k == 3 then f3 else f3 - {path}
  }

  // ---------------------------------------------------------------------------
  // The transaction reaches the last state, and stops at an earlier one when a write fails.

  lemma TransactionWrites(env: Env, keying: Keying, locked: set<FilePath>, dir: seq<string>, files: FileMap, m: Mem,
                          commands: seq<Commands.Command>)
    requires NeverFails(env.records) && NeverFails(env.vaults)
    requires RecordPath(dir, m.recordStamp) !in locked
    ensures var done := Transaction(env, keying, locked, dir, files, m, commands);
      (VaultPath(dir) in locked ==>
        done.result == Err(WriteError) && done.files == AfterWrites(env, keying, dir, files, m, commands, 1)) &&
      (VaultPath(dir) !in locked && SchemaPath(dir) in locked ==>
        done.result == Err(WriteError) && done.files == AfterWrites(env, keying, dir, files, m, commands, 2)) &&
      (VaultPath(dir) !in locked && SchemaPath(dir) !in locked ==>
        done.result == Ok(env.transact(m.vault, commands).0) &&
        done.files == AfterWrites(env, keying, dir, files, m, commands, 4) &&
        done.mem.vault == env.applyRecord(m.vault, env.transact(m.vault, commands).1))
  {
    LayoutDistinct(dir, m.recordStamp, 0);
    var record := env.transact(m.vault, commands).1;
    var sealed := Envelope(env.records.encrypt(record, RecordKey(env, keying, m, m.record.salt)).value, m.record.salt);
    var f1 := files[RecordPath(dir, m.recordStamp) := Sealed(sealed)];
    var m1 := m.(record := sealed);
    var saved := Save(env, locked, dir, f1, m1.(vault := env.applyRecord(m1.vault, record)));
    assert VaultPath(dir) in locked ==> saved.files == f1 && saved.result == Err(WriteError);
  }

  // ---------------------------------------------------------------------------
  // Reopening.

  lemma LatestOfNone(files: FileMap, dir: seq<string>)
    requires NoRecords(files, dir)
    ensures Latest(files, dir, RECORD) == Ok(None)
  {
    assert ListedStamps(files, dir, RECORD) == {};
  }

  /** With exactly one record file, recovery picks it. */
  lemma LatestOfOne(files: FileMap, dir: seq<string>, t: Timestamp)
    requires RecordPath(dir, t) in files
    requires forall p :: p in files && MatchesGlob(p, dir, RECORD) ==> p == RecordPath(dir, t)
    ensures Latest(files, dir, RECORD) == Ok(Some(t))
  {
    ParseTimestampedPath(dir, RECORD, t);
    TimestampedPathMatches(dir, RECORD, t);
    assert StampOf(RecordPath(dir, t)) == Some(t);
    assert ListedStamps(files, dir, RECORD) == {t};
  }

  /** Opening a vault file that holds `v` yields `v`, with the key from the file's salt. */
  lemma Reopen(env: Env, files: FileMap, dir: seq<string>, password: Password, d: Draws, v: VaultData)
    requires NeverFails(env.records)
    requires Holds(env, files, dir, password, v)
    ensures Open(env, files, dir, password, d).Ok?
    ensures OpenedFrom(env, files, dir, password, Open(env, files, dir, password, d).value)
    ensures Open(env, files, dir, password, d).value.vault == v
  {
  }

  /** Saving writes a vault file that holds the saved contents, and adds no record file. */
  lemma SaveHolds(env: Env, locked: set<FilePath>, dir: seq<string>, files: FileMap, password: Password, m: Mem)
    requires NeverFails(env.vaults) && RoundTrips(env.vaults)
    requires VaultPath(dir) !in locked && SchemaPath(dir) !in locked
    requires m.key == env.kdf(m.sealed.salt, password)
    ensures var saved := Save(env, locked, dir, files, m);
      saved.result.Ok? && Holds(env, saved.files, dir, password, m.vault) &&
      saved.mem.vault == m.vault && saved.mem.key == m.key && saved.mem.sealed.salt == m.sealed.salt &&
      forall p :: p in saved.files && MatchesGlob(p, dir, RECORD) ==> p in files
  {
    LayoutDistinct(dir, 0, 0);
    var saved := Save(env, locked, dir, files, m);
    SealUnseal(env.vaults, m.vault, m.key);
    assert saved.files[VaultPath(dir)] == Sealed(Envelope(env.vaults.encrypt(m.vault, m.key).value, m.sealed.salt));
  }

  /** A pending record that decrypts under the key recovery uses is applied, saved and deleted. */
  lemma RecoverOne(env: Env, keying: Keying, locked: set<FilePath>, dir: seq<string>, files: FileMap,
                   password: Password, m: Mem, t: Timestamp, record: RecordData)
    requires NeverFails(env.vaults) && RoundTrips(env.vaults)
    requires VaultPath(dir) !in locked && SchemaPath(dir) !in locked && RecordPath(dir, t) !in locked
    requires m.key == env.kdf(m.sealed.salt, password)
    requires RecordPath(dir, t) in files && files[RecordPath(dir, t)].Sealed?
    requires var e := files[RecordPath(dir, t)].envelope;
      env.records.decrypt(e.data, RecordKey(env, keying, m, e.salt)) == Some(record)
    requires forall p :: p in files && MatchesGlob(p, dir, RECORD) ==> p == RecordPath(dir, t)
    ensures var checked := CheckUnfinished(env, keying, locked, dir, files, m);
      checked.result.Ok? && checked.mem.vault == env.applyRecord(m.vault, record) &&
      NoRecords(checked.files, dir) && Holds(env, checked.files, dir, password, checked.mem.vault)
  {
    LatestOfOne(files, dir, t);
    LayoutDistinct(dir, t, 0);
    var applied := m.(vault := env.applyRecord(m.vault, record));
    SaveHolds(env, locked, dir, files, password, applied);
    var saved := Save(env, locked, dir, files, applied);
    assert RecordPath(dir, t) in saved.files;
    var checked := CheckUnfinished(env, keying, locked, dir, files, m);
    assert checked.files == saved.files - {RecordPath(dir, t)};
  }

  /**
   * Crash atomicity: reopening with the same password after the first `k` file operations of a
   * transaction succeeds and leaves no record behind. The vault is the old one when the record
   * was never written, the updated one when the record was written but the vault was not or
   * when the record is already gone, and the record applied a second time when both files
   * exist (the code applies a pending record regardless of whether the save had happened).
   */
  lemma CrashRecovery(env: Env, locked: set<FilePath>, dir: seq<string>, files: FileMap, password: Password,
                      m: Mem, commands: seq<Commands.Command>, k: nat, d: Draws)
    requires NeverFails(env.vaults) && NeverFails(env.records)
    requires RoundTrips(env.vaults) && RoundTrips(env.records)
    requires VaultPath(dir) !in locked && SchemaPath(dir) !in locked && RecordPath(dir, m.recordStamp) !in locked
    requires NoRecords(files, dir) && OpenedFrom(env, files, dir, password, m)
    requires k <= 4
    ensures var record := env.transact(m.vault, commands).1;
      var after := env.applyRecord(m.vault, record);
      var reopened := Load(env, VaultKey, locked, dir, AfterWrites(env, VaultKey, dir, files, m, commands, k), password, d);
      reopened.result.Ok? &&
      reopened.result.value.vault == (if k == 0 then m.vault
                                      else if k == 1 || k == 4 then after
                                      else env.applyRecord(after, record)) &&
      NoRecords(reopened.files, dir) && Holds(env, reopened.files, dir, password, reopened.result.value.vault)
  {
    var record := env.transact(m.vault, commands).1;
    var after := env.applyRecord(m.vault, record);
    var path := RecordPath(dir, m.recordStamp);
    var files' := AfterWrites(env, VaultKey, dir, files, m, commands, k);
    LayoutDistinct(dir, m.recordStamp, 0);
    TimestampedPathMatches(dir, RECORD, m.recordStamp);
    var stored := if k <= 1 then m.vault else after;
    SealUnseal(env.vaults, after, m.key);
    assert Holds(env, files', dir, password, stored);
    Reopen(env, files', dir, password, d, stored);
    var m2 := Open(env, files', dir, password, d).value;
    assert m2.key == m.key;
    if k == 0 || k == 4 {
      LatestOfNone(files', dir);
    } else {
      SealUnseal(env.records, record, m.key);
      RecoverOne(env, VaultKey, locked, dir, files', password, m2, m.recordStamp, record);
    }
  }

  /**
   * With `apply_record` idempotent on this record (a property of code this model does not
   * contain, so it is a hypothesis here), every interrupted transaction is either lost whole
   * or applied exactly once.
   */
  lemma CrashAtomic(env: Env, locked: set<FilePath>, dir: seq<string>, files: FileMap, password: Password,
                    m: Mem, commands: seq<Commands.Command>, k: nat, d: Draws)
    requires NeverFails(env.vaults) && NeverFails(env.records)
    requires RoundTrips(env.vaults) && RoundTrips(env.records)
    requires VaultPath(dir) !in locked && SchemaPath(dir) !in locked && RecordPath(dir, m.recordStamp) !in locked
    requires NoRecords(files, dir) && OpenedFrom(env, files, dir, password, m)
    requires k <= 4
    requires var record := env.transact(m.vault, commands).1;
      env.applyRecord(env.applyRecord(m.vault, record), record) == env.applyRecord(m.vault, record)
    ensures var reopened := Load(env, VaultKey, locked, dir, AfterWrites(env, VaultKey, dir, files, m, commands, k), password, d);
      reopened.result.Ok? &&
      reopened.result.value.vault ==
        (if k == 0 then m.vault else env.applyRecord(m.vault, env.transact(m.vault, commands).1))
  {
    CrashRecovery(env, locked, dir, files, password, m, commands, k, d);
  }
}
