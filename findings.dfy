/**
 * Places where the handler (src/vault/interface.rs) and the file writes under it (src/file.rs)
 * do not do what the write-ahead design evidently intends. Each is shown on the code as written
 * and then on a corrected definition.
 */
module HandlerFindings {
  import opened Wrappers
  import opened Errors
  import opened Files
  import opened Storage
  import opened Encryption
  import opened Vaults
  import Commands
  import opened VaultProtocol
  import opened Recovery

  // ---------------------------------------------------------------------------
  // A record left by the first transaction on a new vault can never be recovered.

  /**
   * The first request on a directory without a vault file, when the vault file cannot be
   * written: it opens a vault that exists only in memory, writes the record, and fails.
   */
  lemma FirstRequest(env: Env, keying: Keying, locked: set<FilePath>, dir: seq<string>, files: FileMap,
                     password: Password, d: Draws, command: Commands.Command, answer: bool)
    returns (m: Mem)
    requires NeverFails(env.vaults) && NeverFails(env.records)
    requires VaultPath(dir) !in files && NoRecords(files, dir)
    requires VaultPath(dir) in locked && RecordPath(dir, d.recordClock) !in locked
    ensures Open(env, files, dir, password, d) == Ok(m)
    ensures m.vault == env.newVault && m.key == env.kdf(d.vaultSalt, password)
    ensures m.record.salt == d.recordSalt && m.recordStamp == d.recordClock
    ensures var first := OneCommand(env, keying, locked, dir, files, password, d, command, answer);
      first.result == Err(WriteError) && first.files == AfterWrites(env, keying, dir, files, m, [command], 1) &&
      VaultPath(dir) !in first.files && RecordPath(dir, d.recordClock) in first.files &&
      forall p :: p in first.files && MatchesGlob(p, dir, RECORD) ==> p == RecordPath(dir, d.recordClock)
  {
    LayoutDistinct(dir, d.recordClock, 0);
    LatestOfNone(files, dir);
    m := Open(env, files, dir, password, d).value;
    TransactionWrites(env, keying, locked, dir, files, m, [command]);
  }

  /**
   * As written: on a directory without a vault file, a request whose vault-file write fails
   * leaves a record sealed under the key of a salt that was only ever in memory. Every later
   * open draws a new salt, cannot decrypt the record, and fails before writing anything, so
   * the vault stays unusable with the right password even once the disk accepts writes.
   */
  lemma FirstTransactionStrands(env: Env, locked: set<FilePath>, later: set<FilePath>, dir: seq<string>,
                                files: FileMap, password: Password, d: Draws, d2: Draws,
                                command: Commands.Command, answer: bool)
    requires NeverFails(env.vaults) && NeverFails(env.records)
    requires WrongKeyFails(env.records) && SaltsSeparate(env.kdf)
    requires VaultPath(dir) !in files && NoRecords(files, dir)
    requires VaultPath(dir) in locked && RecordPath(dir, d.recordClock) !in locked
    requires d2.vaultSalt != d.vaultSalt
    ensures var first := OneCommand(env, VaultKey, locked, dir, files, password, d, command, answer);
      first.result == Err(WriteError) && VaultPath(dir) !in first.files && !NoRecords(first.files, dir) &&
      Load(env, VaultKey, later, dir, first.files, password, d2) == Opened(first.files, Err(DecryptionError))
  {
    var m := FirstRequest(env, VaultKey, locked, dir, files, password, d, command, answer);
    var first := OneCommand(env, VaultKey, locked, dir, files, password, d, command, answer);
    LayoutDistinct(dir, d.recordClock, 0);
    LatestOfOne(first.files, dir, d.recordClock);
    var m2 := Open(env, first.files, dir, password, d2).value;
    assert m2.key != m.key;
    var record := env.transact(m.vault, [command]).1;
    SealWrongKey(env.records, record, m.key, m2.key);
    var path := RecordPath(dir, d.recordClock);
    assert first.files[path] == Sealed(Envelope(Seal(env.records, record, m.key).value, d.recordSalt));
    assert ApplyUnfinished(env, VaultKey, later, dir, first.files, m2, d.recordClock) == Effect(first.files, m2, Err(DecryptionError));
  }

  /**
   * Corrected: records are sealed and opened with the key derived from the record's own salt.
   * The same failed request is then recovered on the next open, once the writes go through.
   */
  lemma FirstTransactionRecoversWithOwnKey(env: Env, locked: set<FilePath>, later: set<FilePath>,
                                           dir: seq<string>, files: FileMap, password: Password,
                                           d: Draws, d2: Draws, command: Commands.Command, answer: bool)
    requires NeverFails(env.vaults) && NeverFails(env.records)
    requires RoundTrips(env.vaults) && RoundTrips(env.records)
    requires VaultPath(dir) !in files && NoRecords(files, dir)
    requires VaultPath(dir) in locked && RecordPath(dir, d.recordClock) !in locked
    requires VaultPath(dir) !in later && SchemaPath(dir) !in later && RecordPath(dir, d.recordClock) !in later
    ensures var first := OneCommand(env, OwnKey(password), locked, dir, files, password, d, command, answer);
      var reopened := Load(env, OwnKey(password), later, dir, first.files, password, d2);
      first.result == Err(WriteError) && VaultPath(dir) !in first.files &&
      reopened.result.Ok? &&
      reopened.result.value.vault == env.applyRecord(env.newVault, env.transact(env.newVault, [command]).1) &&
      NoRecords(reopened.files, dir) && Holds(env, reopened.files, dir, password, reopened.result.value.vault)
  {
    var m := FirstRequest(env, OwnKey(password), locked, dir, files, password, d, command, answer);
    var first := OneCommand(env, OwnKey(password), locked, dir, files, password, d, command, answer);
    LayoutDistinct(dir, d.recordClock, 0);
    var m2 := Open(env, first.files, dir, password, d2).value;
    var record := env.transact(m.vault, [command]).1;
    SealUnseal(env.records, record, env.kdf(d.recordSalt, password));
    RecoverOne(env, OwnKey(password), later, dir, first.files, password, m2, d.recordClock, record);
  }

  // ---------------------------------------------------------------------------
  // A write that fails after truncating its file leaves the vault unopenable.
  //
  // `ProjectFile::write` truncates the file (`File::create`) before `write_all`, so a full disk
  // or a crash between the two leaves an unparsable file at the path. The rest of this model
  // writes a file whole or not at all, as a write to a temporary file renamed over the target
  // would; `Recovery.CrashRecovery` is the property that buys.

  /**
   * As written: a transaction interrupted inside its vault-file write, after the record was
   * written, leaves a truncated vault file. Every later open, with any password, panics on it
   * before `check_unfinished` runs, so the record is never applied.
   */
  lemma TruncatedVaultStrands(env: Env, keying: Keying, later: set<FilePath>, dir: seq<string>,
                              files: FileMap, m: Mem, commands: seq<Commands.Command>,
                              password: Password, d: Draws)
    requires NeverFails(env.records) && NeverFails(env.vaults)
    ensures var torn := AfterWrites(env, keying, dir, files, m, commands, 1)[VaultPath(dir) := Malformed];
      RecordPath(dir, m.recordStamp) in torn &&
      Load(env, keying, later, dir, torn, password, d) == Opened(torn, Err(Panic))
  {
    LayoutDistinct(dir, m.recordStamp, 0);
  }

  /**
   * As written: a record write that fails after truncation leaves a record file that every
   * later open lists as the newest record and panics on, with the vault file intact.
   */
  lemma TruncatedRecordStrands(env: Env, keying: Keying, later: set<FilePath>, dir: seq<string>,
                               files: FileMap, m: Mem, password: Password, d: Draws)
    requires NeverFails(env.records)
    requires NoRecords(files, dir) && OpenedFrom(env, files, dir, password, m)
    ensures var torn := files[RecordPath(dir, m.recordStamp) := Malformed];
      Open(env, torn, dir, password, d).Ok? &&
      Load(env, keying, later, dir, torn, password, d) == Opened(torn, Err(Panic))
  {
    var torn := files[RecordPath(dir, m.recordStamp) := Malformed];
    LayoutDistinct(dir, m.recordStamp, 0);
    TimestampedPathMatches(dir, RECORD, m.recordStamp);
    LatestOfOne(torn, dir, m.recordStamp);
  }

  // ---------------------------------------------------------------------------
  // Restore does not restore.

  /** The contents of the backup stamped `stamp`, as Restore decrypts them. */
  function BackupContents(env: Env, files: FileMap, dir: seq<string>, backupPassword: Password,
                          stamp: Timestamp): Result<VaultData, Error>
  {
    match ReadEnvelope(files, BackupPath(dir, stamp))
    case Err(e) => Err(e)
    case Ok(backup) => Unseal(env.vaults, backup.data, env.kdf(backup.salt, backupPassword))
  }

  /**
   * As written: a successful Restore leaves a vault file that opens with the backup password
   * but holds the contents loaded with the current password, so whenever the backup differs
   * from the current vault the backup is not what the vault now holds.
   */
  lemma RestoreKeepsCurrent(env: Env, locked: set<FilePath>, dir: seq<string>, files: FileMap,
                            password: Password, backupPassword: Password, stamp: Timestamp, d: Draws)
    requires RoundTrips(env.vaults)
    ensures var restored := Receive(env, locked, dir, files, Restore(password, backupPassword, stamp), d);
      restored.result.Ok? ==>
        BackupContents(env, files, dir, backupPassword, stamp).Ok? &&
        Load(env, VaultKey, locked, dir, files, password, d).result.Ok? &&
        var current := Load(env, VaultKey, locked, dir, files, password, d).result.value.vault;
        Holds(env, restored.files, dir, backupPassword, current) &&
        (BackupContents(env, files, dir, backupPassword, stamp).value != current ==>
          !Holds(env, restored.files, dir, backupPassword, BackupContents(env, files, dir, backupPassword, stamp).value))
  {
    var restored := Receive(env, locked, dir, files, Restore(password, backupPassword, stamp), d);
    if restored.result.Ok? {
      var backup := ReadEnvelope(files, BackupPath(dir, stamp)).value;
      var key := env.kdf(backup.salt, backupPassword);
      var backed := LoadAndBackup(env, locked, dir, files, password, d);
      var adopted := backed.result.value.0.(sealed := backup, key := key);
      assert restored == Adopt(env, locked, dir, backed.files, adopted, backed.result.value.1);
      AdoptHolds(env, locked, dir, backed.files, adopted, backed.result.value.1, backupPassword);
    }
  }

  /** Corrected Restore: the decrypted backup becomes the vault's contents before the save. */
  ghost function RestoreIntended(env: Env, locked: set<FilePath>, dir: seq<string>, files: FileMap,
                                 password: Password, backupPassword: Password, stamp: Timestamp, d: Draws): Response
  {
    match ReadEnvelope(files, BackupPath(dir, stamp))
    case Err(e) => Response(files, Err(e))
    case Ok(backup) =>
      var key := env.kdf(backup.salt, backupPassword);
      match Unseal(env.vaults, backup.data, key)
      case Err(e) => Response(files, Err(e))
      case Ok(contents) =>
        var backed := LoadAndBackup(env, locked, dir, files, password, d);
        if backed.result.Err? then Response(backed.files, Err(backed.result.error))
        else Adopt(env, locked, dir, backed.files,
                   backed.result.value.0.(vault := contents, sealed := backup, key := key), backed.result.value.1)
  }

  /** The corrected Restore leaves a vault file that opens with the backup password to the backup. */
  lemma RestoreIntendedAdoptsBackup(env: Env, locked: set<FilePath>, dir: seq<string>, files: FileMap,
                                    password: Password, backupPassword: Password, stamp: Timestamp, d: Draws)
    requires RoundTrips(env.vaults)
    ensures var restored := RestoreIntended(env, locked, dir, files, password, backupPassword, stamp, d);
      restored.result.Ok? ==>
        BackupContents(env, files, dir, backupPassword, stamp).Ok? &&
        Holds(env, restored.files, dir, backupPassword, BackupContents(env, files, dir, backupPassword, stamp).value)
  {
    var restored := RestoreIntended(env, locked, dir, files, password, backupPassword, stamp, d);
    if restored.result.Ok? {
      var backup := ReadEnvelope(files, BackupPath(dir, stamp)).value;
      var key := env.kdf(backup.salt, backupPassword);
      var contents := Unseal(env.vaults, backup.data, key).value;
      assert BackupContents(env, files, dir, backupPassword, stamp) == Ok(contents);
      var backed := LoadAndBackup(env, locked, dir, files, password, d);
      var adopted := backed.result.value.0.(vault := contents, sealed := backup, key := key);
      assert restored == Adopt(env, locked, dir, backed.files, adopted, backed.result.value.1);
      AdoptHolds(env, locked, dir, backed.files, adopted, backed.result.value.1, backupPassword);
    }
  }

  /**
   * Adopting a handler state and saving it leaves a vault file that opens, with the password
   * its key was derived from, to the handler's contents.
   */
  lemma AdoptHolds(env: Env, locked: set<FilePath>, dir: seq<string>, files: FileMap, m: Mem,
                   stamp: Timestamp, password: Password)
    requires RoundTrips(env.vaults)
    requires m.key == env.kdf(m.sealed.salt, password)
    ensures var adopted := Adopt(env, locked, dir, files, m, stamp);
      adopted.result.Ok? ==> Holds(env, adopted.files, dir, password, m.vault)
  {
    var saved := Save(env, locked, dir, files, m);
    if saved.result.Ok? {
      LayoutDistinct(dir, 0, 0);
      SealUnseal(env.vaults, m.vault, m.key);
      assert saved.files[VaultPath(dir)] == Sealed(Envelope(Seal(env.vaults, m.vault, m.key).value, m.sealed.salt));
    }
  }
}
