/**
 * The vault handler's storage protocol (src/vault/interface.rs) as functions from the files of
 * one save directory to the files afterwards and a result. Every password-taking request opens
 * the vault, recovers a pending write-ahead record, and then runs a transaction, a backup, a
 * key rotation or a restore.
 *
 * The vault's own operations (`Vault::new`, `transaction`, `apply_record`, `schema`), the cipher
 * and the key derivation are opaque functions gathered in `Env`. Random salts and clock readings
 * are the fields of `Draws`.
 */
module VaultProtocol {
  import opened Wrappers
  import opened Errors
  import opened Files
  import opened Storage
  import opened Encryption
  import Schemas
  import opened Vaults
  import opened Actions
  import Commands
  import opened Stores

  /** The contents of a Record: its actions in push order. */
  type RecordData = seq<Action>

  /** What a transaction read: key to Store, as in `Reads<Store>`. */
  type ReadsData = map<string, StoreData>

  /** The collaborators whose bodies are not part of this model. */
  datatype Env = Env(
    kdf: Kdf,
    vaults: Cipher<VaultData>,
    records: Cipher<RecordData>,
    newVault: VaultData,                                           // Vault::new()
    transact: (VaultData, seq<Commands.Command>) -> (ReadsData, RecordData),   // Vault::transaction
    applyRecord: (VaultData, RecordData) -> VaultData,             // Vault::apply_record
    schemaOf: VaultData -> Schemas.Schema)                         // Vault::schema

  /** The random salts and clock readings one request draws. */
  datatype Draws = Draws(
    recordSalt: Salt,        // RecordEncrypted::new in get_interface
    vaultSalt: Salt,         // the salt of a vault that has no file yet
    recordClock: Timestamp,  // the record file's timestamp, fixed when the handler is built
    backupClock: Timestamp,  // the backup file's timestamp
    rotateSalt: Salt)        // VaultEncrypted::new in Rotate

  // ---------------------------------------------------------------------------
  // The layout of a save directory.

  function VaultPath(dir: seq<string>): FilePath { NonTimestampedPath(dir, VAULT) }
  function SchemaPath(dir: seq<string>): FilePath { NonTimestampedPath(dir, SCHEMA) }
  function RecordPath(dir: seq<string>, t: Timestamp): FilePath { TimestampedPath(dir, RECORD, t) }
  function BackupPath(dir: seq<string>, t: Timestamp): FilePath { TimestampedPath(dir, BACKUP, t) }

  /** The four kinds of file live in four different folders. */
  lemma LayoutDistinct(dir: seq<string>, t: Timestamp, u: Timestamp)
    ensures VaultPath(dir) != SchemaPath(dir)
    ensures RecordPath(dir, t) != VaultPath(dir) && RecordPath(dir, t) != SchemaPath(dir)
    ensures BackupPath(dir, u) != VaultPath(dir) && BackupPath(dir, u) != SchemaPath(dir)
    ensures BackupPath(dir, u) != RecordPath(dir, t)
    ensures !MatchesGlob(VaultPath(dir), dir, RECORD) && !MatchesGlob(SchemaPath(dir), dir, RECORD)
    ensures !MatchesGlob(BackupPath(dir, u), dir, RECORD)
  {
    PathsDistinct(dir, t, u);
    PathsDistinct(dir, u, t);
    assert (dir + [RECORD])[|dir|] == RECORD && (dir + [BACKUP])[|dir|] == BACKUP;
    assert (dir + [VAULT])[|dir|] == VAULT && (dir + [SCHEMA])[|dir|] == SCHEMA;
  }

  // ---------------------------------------------------------------------------
  // The handler's state and the results of its steps.

  /**
   * A `VaultHandler` in memory: the decrypted vault, the encrypted form last produced with its
   * salt, the vault key, the encrypted record with its own salt, and the record file's stamp.
   */
  datatype Mem = Mem(vault: VaultData, sealed: Envelope, key: Key, record: Envelope, recordStamp: Timestamp)

  /** A step on an open handler: the files afterwards, the handler afterwards, and the result. */
  datatype Effect<X> = Effect(files: FileMap, mem: Mem, result: Result<X, Error>)

  /** Opening a handler: the files afterwards and the handler, or the error. */
  datatype Opened = Opened(files: FileMap, result: Result<Mem, Error>)

  /** A request's reply and the files it leaves. */
  datatype Response = Response(files: FileMap, result: Result<Output, Error>)

  /** `Output`, restricted to the variants the handler and the registry produce. */
  datatype Output =
    | Read(values: ReadsData)
    | Nothing
    | BackupMade(stamp: Timestamp)
    | SchemaOf(schema: Schemas.Schema)
    | BackupFiles(stamps: seq<Timestamp>)
    | List(names: seq<string>)
    | Info(info: map<string, Schemas.Schema>)

  /** `Message`; a backup file is named by its timestamp within the save directory. */
  datatype Message =
    | Get(password: Password, key: string)
    | Update(password: Password, key: string, value: StoreData)
    | Delete(password: Password, key: string)
    | Backup(password: Password)
    | Rotate(password: Password, newPassword: Password)
    | Restore(password: Password, backupPassword: Password, backup: Timestamp)
    | Schema
    | BackupList

  /**
   * The key a record file is sealed and opened with. The code uses the vault key; `OwnKey` is
   * the key derived from the record's own salt, the correction of a finding.
   */
  datatype Keying = VaultKey | OwnKey(password: Password)

  function RecordKey(env: Env, keying: Keying, m: Mem, salt: Salt): Key
  {
    match keying
    case VaultKey => m.key
    case OwnKey(password) => env.kdf(salt, password)
  }

  // ---------------------------------------------------------------------------
  // The steps.

  /**
   * `get_interface`: encrypt an empty record under a fresh salt; then either decrypt the vault
   * file with the key from its stored salt, or make a new vault with a fresh salt in memory.
   * Nothing is written.
   */
  function Open(env: Env, files: FileMap, dir: seq<string>, password: Password, d: Draws): Result<Mem, Error>
  {
    match Seal(env.records, [], env.kdf(d.recordSalt, password))
    case Err(e) => Err(e)
    case Ok(emptyRecord) =>
      var record := Envelope(emptyRecord, d.recordSalt);
      if VaultPath(dir) in files then
        match ReadEnvelope(files, VaultPath(dir))
        case Err(e) => Err(e)
        case Ok(sealed) =>
          var key := env.kdf(sealed.salt, password);
          match Unseal(env.vaults, sealed.data, key)
          case Err(e) => Err(e)
          case Ok(vault) => Ok(Mem(vault, sealed, key, record, d.recordClock))
      else
        var key := env.kdf(d.vaultSalt, password);
        match Seal(env.vaults, env.newVault, key)
        case Err(e) => Err(e)
        case Ok(data) => Ok(Mem(env.newVault, Envelope(data, d.vaultSalt), key, record, d.recordClock))
  }

  /** `save`: re-encrypt under the current key and salt, write the vault file, then the schema. */
  function Save(env: Env, locked: set<FilePath>, dir: seq<string>, files: FileMap, m: Mem): Effect<()>
  {
    match Seal(env.vaults, m.vault, m.key)
    case Err(e) => Effect(files, m, Err(e))
    case Ok(data) =>
      var m1 := m.(sealed := Envelope(data, m.sealed.salt));
      if VaultPath(dir) in locked then Effect(files, m1, Err(WriteError))
      else
        var files1 := files[VaultPath(dir) := Sealed(m1.sealed)];
        if SchemaPath(dir) in locked then Effect(files1, m1, Err(WriteError))
        else Effect(files1[SchemaPath(dir) := SchemaDoc(env.schemaOf(m.vault))], m1, Ok(()))
  }

  /** `apply_unfinished`: read and decrypt the record, apply it, save, and only then delete it. */
  function ApplyUnfinished(env: Env, keying: Keying, locked: set<FilePath>, dir: seq<string>,
                           files: FileMap, m: Mem, t: Timestamp): Effect<()>
  {
    var path := RecordPath(dir, t);
    match ReadEnvelope(files, path)
    case Err(e) => Effect(files, m, Err(e))
    case Ok(sealed) =>
      match Unseal(env.records, sealed.data, RecordKey(env, keying, m, sealed.salt))
      case Err(e) => Effect(files, m, Err(e))
      case Ok(record) =>
        var saved := Save(env, locked, dir, files, m.(vault := env.applyRecord(m.vault, record)));
        if saved.result.Err? then saved
        else if path !in saved.files || path in locked then Effect(saved.files, saved.mem, Err(RemoveError))
        else Effect(saved.files - {path}, saved.mem, Ok(()))
  }

  /** `check_unfinished`: recover from the newest record file, if there is one. */
  ghost function CheckUnfinished(env: Env, keying: Keying, locked: set<FilePath>, dir: seq<string>,
                                 files: FileMap, m: Mem): Effect<()>
  {
    match Latest(files, dir, RECORD)
    case Err(e) => Effect(files, m, Err(e))
    case Ok(None) => Effect(files, m, Ok(()))
    case Ok(Some(t)) => ApplyUnfinished(env, keying, locked, dir, files, m, t)
  }

  /** `load_interface`: open, then recover. */
  ghost function Load(env: Env, keying: Keying, locked: set<FilePath>, dir: seq<string>,
                      files: FileMap, password: Password, d: Draws): Opened
  {
    match Open(env, files, dir, password, d)
    case Err(e) => Opened(files, Err(e))
    case Ok(m) =>
      var checked := CheckUnfinished(env, keying, locked, dir, files, m);
      Opened(checked.files, if checked.result.Err? then Err(checked.result.error) else Ok(checked.mem))
  }

  /** `backup`: a new backup file holding the in-memory vault under the current salt and key. */
  function MakeBackup(env: Env, locked: set<FilePath>, dir: seq<string>, files: FileMap, m: Mem,
                      clock: Timestamp): Effect<Timestamp>
  {
    match Seal(env.vaults, m.vault, m.key)
    case Err(e) => Effect(files, m, Err(e))
    case Ok(data) =>
      if BackupPath(dir, clock) in locked then Effect(files, m, Err(WriteError))
      else Effect(files[BackupPath(dir, clock) := Sealed(Envelope(data, m.sealed.salt))], m, Ok(clock))
  }

  /**
   * `transaction`: run the commands, seal the record and write it, then change the vault in
   * memory, save, and delete the record.
   */
  function Transaction(env: Env, keying: Keying, locked: set<FilePath>, dir: seq<string>,
                       files: FileMap, m: Mem, commands: seq<Commands.Command>): Effect<ReadsData>
  {
    var (answers, record) := env.transact(m.vault, commands);
    match Seal(env.records, record, RecordKey(env, keying, m, m.record.salt))
    case Err(e) => Effect(files, m, Err(e))
    case Ok(data) =>
      var m1 := m.(record := Envelope(data, m.record.salt));
      var path := RecordPath(dir, m.recordStamp);
      if path in locked then Effect(files, m1, Err(WriteError))
      else
        var saved := Save(env, locked, dir, files[path := Sealed(m1.record)],
                          m1.(vault := env.applyRecord(m1.vault, record)));
        if saved.result.Err? then Effect(saved.files, saved.mem, Err(saved.result.error))
        else if path !in saved.files || path in locked then Effect(saved.files, saved.mem, Err(RemoveError))
        else Effect(saved.files - {path}, saved.mem, Ok(answers))
  }

  /** Get, Update and Delete: load, then a transaction of one command. */
  ghost function OneCommand(env: Env, keying: Keying, locked: set<FilePath>, dir: seq<string>, files: FileMap,
                            password: Password, d: Draws, command: Commands.Command, answer: bool): Response
  {
    var loaded := Load(env, keying, locked, dir, files, password, d);
    match loaded.result
    case Err(e) => Response(loaded.files, Err(e))
    case Ok(m) =>
      var done := Transaction(env, keying, locked, dir, loaded.files, m, [command]);
      match done.result
      case Err(e) => Response(done.files, Err(e))
      case Ok(answers) => Response(done.files, Ok(if answer then Read(answers) else Nothing))
  }

  /** The result of loading and then backing up: the files, and the handler with the backup's stamp. */
  datatype Backed = Backed(files: FileMap, result: Result<(Mem, Timestamp), Error>)

  /** Backup, Rotate and Restore all start by loading and writing a backup. */
  ghost function LoadAndBackup(env: Env, locked: set<FilePath>, dir: seq<string>, files: FileMap,
                               password: Password, d: Draws): Backed
  {
    var loaded := Load(env, VaultKey, locked, dir, files, password, d);
    match loaded.result
    case Err(e) => Backed(loaded.files, Err(e))
    case Ok(m) =>
      var backup := MakeBackup(env, locked, dir, loaded.files, m, d.backupClock);
      Backed(backup.files, if backup.result.Err? then Err(backup.result.error) else Ok((m, backup.result.value)))
  }

  /** Rotate and Restore end by saving the handler with its new salt and key; the reply is the backup. */
  function Adopt(env: Env, locked: set<FilePath>, dir: seq<string>, files: FileMap, m: Mem, stamp: Timestamp): Response
  {
    var saved := Save(env, locked, dir, files, m);
    Response(saved.files, if saved.result.Err? then Err(saved.result.error) else Ok(BackupMade(stamp)))
  }

  /** `get_schema`: the schema file's contents; the default empty schema if it cannot be read. */
  function ReadSchema(files: FileMap, dir: seq<string>): Result<Schemas.Schema, Error>
  {
    if SchemaPath(dir) !in files then Ok(Schemas.Schema(map[]))
    else match files[SchemaPath(dir)]
      case SchemaDoc(s) => Ok(s)
      case _ => Err(Panic)
  }

  /** `VaultHandler::receive` as written. */
  ghost function Receive(env: Env, locked: set<FilePath>, dir: seq<string>, files: FileMap,
                         message: Message, d: Draws): Response
  {
    match message
    case Get(password, key) => OneCommand(env, VaultKey, locked, dir, files, password, d, Commands.Read(key), true)
    case Update(password, key, value) =>
      OneCommand(env, VaultKey, locked, dir, files, password, d, Commands.Update(key, value), true)
    case Delete(password, key) => OneCommand(env, VaultKey, locked, dir, files, password, d, Commands.Delete(key), false)
    case Backup(password) =>
      var backed := LoadAndBackup(env, locked, dir, files, password, d);
      Response(backed.files, if backed.result.Err? then Err(backed.result.error) else Ok(BackupMade(backed.result.value.1)))
    case Rotate(password, newPassword) =>
      var backed := LoadAndBackup(env, locked, dir, files, password, d);
      if backed.result.Err? then Response(backed.files, Err(backed.result.error))
      else
        var (m, stamp) := backed.result.value;
        var key := env.kdf(d.rotateSalt, newPassword);
        (match Seal(env.vaults, env.newVault, key)
         case Err(e) => Response(backed.files, Err(e))
         case Ok(data) => Adopt(env, locked, dir, backed.files, m.(sealed := Envelope(data, d.rotateSalt), key := key), stamp))
    case Restore(password, backupPassword, backupStamp) =>
      (match ReadEnvelope(files, BackupPath(dir, backupStamp))
       case Err(e) => Response(files, Err(e))
       case Ok(backup) =>
         var key := env.kdf(backup.salt, backupPassword);
         match Unseal(env.vaults, backup.data, key)
         case Err(e) => Response(files, Err(e))
         case Ok(_) =>
           var backed := LoadAndBackup(env, locked, dir, files, password, d);
           if backed.result.Err? then Response(backed.files, Err(backed.result.error))
           else Adopt(env, locked, dir, backed.files, backed.result.value.0.(sealed := backup, key := key), backed.result.value.1))
    case Schema => Response(files, Err(Panic))
    case BackupList => Response(files, Err(Panic))
  }
}
