/**
 * `VaultHandler` and `VaultInterface` (src/vault/interface.rs) over a `FileStore`. Each method
 * is proved against the step of `VaultProtocol` it implements: the files afterwards, the
 * handler afterwards and the result are the ones the step function gives.
 */
module Interfaces {
  import opened Wrappers
  import opened Errors
  import opened Files
  import opened Storage
  import opened Encryption
  import Schemas
  import opened Vaults
  import Commands
  import opened VaultProtocol

  /** `ProjectFile::read` then `deserialize` for an encrypted file. */
  method ReadSealed(store: FileStore, p: FilePath) returns (r: Result<Envelope, Error>)
    ensures r == ReadEnvelope(store.files, p)
  {
    var blob := store.Read(p);
    if blob.Err? {
      return Err(blob.error);
    }
    match blob.value {
      case Sealed(e) => r := Ok(e);
      case _ => r := Err(Panic);
    }
  }

  class VaultHandler {
    var vault: VaultData
    var vaultEncrypted: PasswordEncrypted<VaultData>
    var key: Key
    const record: PasswordEncrypted<RecordData>
    /** The timestamp of `record_file`, fixed when the handler is built. */
    const recordStamp: Timestamp
    /** The save directory and the files under it. */
    const store: FileStore
    const dir: seq<string>
    const env: Env

    constructor (env: Env, store: FileStore, dir: seq<string>, vault: VaultData,
                 vaultEncrypted: PasswordEncrypted<VaultData>, key: Key,
                 record: PasswordEncrypted<RecordData>, recordStamp: Timestamp)
      ensures this.env == env && this.store == store && this.dir == dir
      ensures this.vault == vault && this.vaultEncrypted == vaultEncrypted && this.key == key
      ensures this.record == record && this.recordStamp == recordStamp
    {
      this.env := env;
      this.store := store;
      this.dir := dir;
      this.vault := vault;
      this.vaultEncrypted := vaultEncrypted;
      this.key := key;
      this.record := record;
      this.recordStamp := recordStamp;
    }

    /** The handler as a value. */
    ghost function State(): Mem
      reads this, vaultEncrypted, record
    {
      Mem(vault, vaultEncrypted.Contents(), key, record.Contents(), recordStamp)
    }

    /** `save`. */
    method Save() returns (r: Result<(), Error>)
      modifies vaultEncrypted, store
      ensures VaultProtocol.Save(env, store.locked, dir, old(store.files), old(State())) == Effect(store.files, State(), r)
    {
      var updated := vaultEncrypted.Update(env.vaults, vault, key);
      if updated.Fail? {
        return Err(updated.error);
      }
      var written := store.Write(VaultPath(dir), Sealed(vaultEncrypted.Contents()));
      if written.Fail? {
        return Err(written.error);
      }
      LayoutDistinct(dir, 0, 0);
      written := store.Write(SchemaPath(dir), SchemaDoc(env.schemaOf(vault)));
      if written.Fail? {
        return Err(written.error);
      }
      r := Ok(());
    }

    /** `apply_unfinished` on the record file stamped `t`. */
    method ApplyUnfinished(t: Timestamp) returns (r: Result<(), Error>)
      modifies this, vaultEncrypted, store
      ensures vaultEncrypted == old(vaultEncrypted) && key == old(key)
      ensures VaultProtocol.ApplyUnfinished(env, VaultKey, store.locked, dir, old(store.files), old(State()), t)
        == Effect(store.files, State(), r)
    {
      var path := RecordPath(dir, t);
      var sealed := ReadSealed(store, path);
      if sealed.Err? {
        return Err(sealed.error);
      }
      var decrypted := Unseal(env.records, sealed.value.data, key);
      if decrypted.Err? {
        return Err(decrypted.error);
      }
      vault := env.applyRecord(vault, decrypted.value);
      r := Save();
      if r.Err? {
        return;
      }
      var removed := store.Delete(path);
      if removed.Fail? {
        return Err(removed.error);
      }
    }

    /** `check_unfinished`: the newest record file of the listing, if any, is applied. */
    method CheckUnfinished() returns (r: Result<(), Error>)
      modifies this, vaultEncrypted, store
      ensures vaultEncrypted == old(vaultEncrypted) && key == old(key)
      ensures VaultProtocol.CheckUnfinished(env, VaultKey, store.locked, dir, old(store.files), old(State()))
        == Effect(store.files, State(), r)
    {
      var entries := store.Glob(dir, RECORD);
      LastOfListing(entries, store.files, dir, RECORD);
      match Last(entries) {
        case Err(e) => r := Err(e);
        case Ok(None) => r := Ok(());
        case Ok(Some(t)) => r := ApplyUnfinished(t);
      }
    }

    /** `backup`: writes a backup stamped `clock`; the handler itself does not change. */
    method Backup(clock: Timestamp) returns (r: Result<Timestamp, Error>)
      modifies store
      ensures MakeBackup(env, store.locked, dir, old(store.files), State(), clock) == Effect(store.files, State(), r)
    {
      var data := Seal(env.vaults, vault, key);
      if data.Err? {
        return Err(data.error);
      }
      var written := store.Write(BackupPath(dir, clock), Sealed(Envelope(data.value, vaultEncrypted.salt)));
      if written.Fail? {
        return Err(written.error);
      }
      r := Ok(clock);
    }

    /** `transaction`: the record is on disk before the vault changes and is deleted after the save. */
    method Transaction(commands: seq<Commands.Command>) returns (r: Result<ReadsData, Error>)
      modifies this, vaultEncrypted, record, store
      ensures vaultEncrypted == old(vaultEncrypted) && key == old(key)
      ensures VaultProtocol.Transaction(env, VaultKey, store.locked, dir, old(store.files), old(State()), commands)
        == Effect(store.files, State(), r)
    {
      var (answers, actions) := env.transact(vault, commands);
      var updated := record.Update(env.records, actions, key);
      if updated.Fail? {
        return Err(updated.error);
      }
      var path := RecordPath(dir, recordStamp);
      var written := store.Write(path, Sealed(record.Contents()));
      if written.Fail? {
        return Err(written.error);
      }
      vault := env.applyRecord(vault, actions);
      var saved := Save();
      if saved.Err? {
        return Err(saved.error);
      }
      var removed := store.Delete(path);
      if removed.Fail? {
        return Err(removed.error);
      }
      r := Ok(answers);
    }
  }

  /** The handler `h` is fresh, works on `store` and `dir`, and is in the state `m`. */
  ghost predicate Built(h: VaultHandler, env: Env, store: FileStore, dir: seq<string>, m: Mem)
    reads h, h.vaultEncrypted, h.record
  {
    h.env == env && h.store == store && h.dir == dir && h.State() == m
  }

  /** `get_interface`: reads the vault file if there is one; writes nothing. */
  method GetInterface(env: Env, store: FileStore, dir: seq<string>, password: Password, d: Draws)
    returns (r: Result<VaultHandler, Error>)
    ensures r.Err? <==> Open(env, store.files, dir, password, d).Err?
    ensures r.Err? ==> r.error == Open(env, store.files, dir, password, d).error
    ensures r.Ok? ==> fresh(r.value) && fresh(r.value.vaultEncrypted) && fresh(r.value.record)
    ensures r.Ok? ==> Built(r.value, env, store, dir, Open(env, store.files, dir, password, d).value)
  {
    var made := New(env.kdf, env.records, password, [], d.recordSalt);
    if made.Err? {
      return Err(made.error);
    }
    var record := made.value;
    var present := store.Exists(VaultPath(dir));
    var vault: VaultData;
    var vaultEncrypted: PasswordEncrypted<VaultData>;
    var key: Key;
    if present {
      var sealed := ReadSealed(store, VaultPath(dir));
      if sealed.Err? {
        return Err(sealed.error);
      }
      vaultEncrypted := new PasswordEncrypted(sealed.value.data, sealed.value.salt);
      key := vaultEncrypted.KeyFor(env.kdf, password);
      var decrypted := Unseal(env.vaults, sealed.value.data, key);
      if decrypted.Err? {
        return Err(decrypted.error);
      }
      vault := decrypted.value;
    } else {
      vault := env.newVault;
      key := env.kdf(d.vaultSalt, password);
      var fromVault := FromPayload(env.vaults, d.vaultSalt, key, vault);
      if fromVault.Err? {
        return Err(fromVault.error);
      }
      vaultEncrypted := fromVault.value;
    }
    var h := new VaultHandler(env, store, dir, vault, vaultEncrypted, key, record, d.recordClock);
    r := Ok(h);
  }

  /** `load_interface`: open, then recover from a pending record. */
  method LoadInterface(env: Env, store: FileStore, dir: seq<string>, password: Password, d: Draws)
    returns (r: Result<VaultHandler, Error>)
    modifies store
    ensures store.files == Load(env, VaultKey, store.locked, dir, old(store.files), password, d).files
    ensures r.Err? <==> Load(env, VaultKey, store.locked, dir, old(store.files), password, d).result.Err?
    ensures r.Err? ==> r.error == Load(env, VaultKey, store.locked, dir, old(store.files), password, d).result.error
    ensures r.Ok? ==> fresh(r.value) && fresh(r.value.vaultEncrypted) && fresh(r.value.record)
    ensures r.Ok? ==>
      Built(r.value, env, store, dir, Load(env, VaultKey, store.locked, dir, old(store.files), password, d).result.value)
  {
    r := GetInterface(env, store, dir, password, d);
    if r.Err? {
      return;
    }
    var h := r.value;
    var checked := h.CheckUnfinished();
    if checked.Err? {
      return Err(checked.error);
    }
  }

  /** Get, Update and Delete: load, then a transaction of the one command. */
  method OneCommandRequest(env: Env, store: FileStore, dir: seq<string>, password: Password, d: Draws,
                           command: Commands.Command, answer: bool)
    returns (r: Result<Output, Error>)
    modifies store
    ensures OneCommand(env, VaultKey, store.locked, dir, old(store.files), password, d, command, answer) == Response(store.files, r)
  {
    var loaded := LoadInterface(env, store, dir, password, d);
    if loaded.Err? {
      return Err(loaded.error);
    }
    var done := loaded.value.Transaction([command]);
    if done.Err? {
      return Err(done.error);
    }
    r := Ok(if answer then Read(done.value) else Nothing);
  }

  /** Load and write a backup, keeping the handler for what follows. */
  method LoadAndBackup(env: Env, store: FileStore, dir: seq<string>, password: Password, d: Draws)
    returns (r: Result<(VaultHandler, Timestamp), Error>)
    modifies store
    ensures var backed := VaultProtocol.LoadAndBackup(env, store.locked, dir, old(store.files), password, d);
      store.files == backed.files && (r.Err? <==> backed.result.Err?) &&
      (r.Err? ==> r.error == backed.result.error) &&
      (r.Ok? ==> fresh(r.value.0) && fresh(r.value.0.vaultEncrypted) && fresh(r.value.0.record) &&
                 Built(r.value.0, env, store, dir, backed.result.value.0) && r.value.1 == backed.result.value.1)
  {
    var loaded := LoadInterface(env, store, dir, password, d);
    if loaded.Err? {
      return Err(loaded.error);
    }
    var h := loaded.value;
    var backup := h.Backup(d.backupClock);
    if backup.Err? {
      return Err(backup.error);
    }
    r := Ok((h, backup.value));
  }

  /** Backup: the reply names the new backup. */
  method BackupRequest(env: Env, store: FileStore, dir: seq<string>, password: Password, d: Draws)
    returns (r: Result<Output, Error>)
    modifies store
    ensures VaultProtocol.Receive(env, store.locked, dir, old(store.files), Backup(password), d) == Response(store.files, r)
  {
    var backed := LoadAndBackup(env, store, dir, password, d);
    if backed.Err? {
      return Err(backed.error);
    }
    r := Ok(BackupMade(backed.value.1));
  }

  /** Rotate: back up, then save the same contents under a fresh salt and the new password's key. */
  method RotateRequest(env: Env, store: FileStore, dir: seq<string>, password: Password, newPassword: Password, d: Draws)
    returns (r: Result<Output, Error>)
    modifies store
    ensures VaultProtocol.Receive(env, store.locked, dir, old(store.files), Rotate(password, newPassword), d)
      == Response(store.files, r)
  {
    var backed := LoadAndBackup(env, store, dir, password, d);
    if backed.Err? {
      return Err(backed.error);
    }
    var (h, stamp) := backed.value;
    var made := New(env.kdf, env.vaults, newPassword, env.newVault, d.rotateSalt);
    if made.Err? {
      return Err(made.error);
    }
    var newVault := made.value;
    h.key := newVault.KeyFor(env.kdf, newPassword);
    h.vaultEncrypted := newVault;
    var saved := h.Save();
    if saved.Err? {
      return Err(saved.error);
    }
    r := Ok(BackupMade(stamp));
  }

  /**
   * Restore as written: the backup must decrypt under the backup password, but what is saved
   * under its salt and key is the vault loaded with the current password.
   */
  method RestoreRequest(env: Env, store: FileStore, dir: seq<string>, password: Password,
                        backupPassword: Password, stamp: Timestamp, d: Draws)
    returns (r: Result<Output, Error>)
    modifies store
    ensures VaultProtocol.Receive(env, store.locked, dir, old(store.files), Restore(password, backupPassword, stamp), d)
      == Response(store.files, r)
  {
    var sealed := ReadSealed(store, BackupPath(dir, stamp));
    if sealed.Err? {
      return Err(sealed.error);
    }
    var backupEncrypted := new PasswordEncrypted<VaultData>(sealed.value.data, sealed.value.salt);
    var backupKey := backupEncrypted.KeyFor(env.kdf, backupPassword);
    var backupVault := Unseal(env.vaults, sealed.value.data, backupKey);
    if backupVault.Err? {
      return Err(backupVault.error);
    }
    var backed := LoadAndBackup(env, store, dir, password, d);
    if backed.Err? {
      return Err(backed.error);
    }
    var (h, newBackup) := backed.value;
    h.vaultEncrypted := backupEncrypted;
    h.key := backupKey;
    var saved := h.Save();
    if saved.Err? {
      return Err(saved.error);
    }
    r := Ok(BackupMade(newBackup));
  }

  /** `VaultHandler::receive`; Schema and BackupList never reach it and panic. */
  method HandlerReceive(env: Env, store: FileStore, dir: seq<string>, message: Message, d: Draws)
    returns (r: Result<Output, Error>)
    modifies store
    ensures VaultProtocol.Receive(env, store.locked, dir, old(store.files), message, d) == Response(store.files, r)
  {
    match message {
      case Get(password, key) =>
        r := OneCommandRequest(env, store, dir, password, d, Commands.Read(key), true);
      case Update(password, key, value) =>
        r := OneCommandRequest(env, store, dir, password, d, Commands.Update(key, value), true);
      case Delete(password, key) =>
        r := OneCommandRequest(env, store, dir, password, d, Commands.Delete(key), false);
      case Backup(password) =>
        r := BackupRequest(env, store, dir, password, d);
      case Rotate(password, newPassword) =>
        r := RotateRequest(env, store, dir, password, newPassword, d);
      case Restore(password, backupPassword, stamp) =>
        r := RestoreRequest(env, store, dir, password, backupPassword, stamp, d);
      case Schema =>
        r := Err(Panic);
      case BackupList =>
        r := Err(Panic);
    }
  }

  /**
   * What `VaultInterface::receive` does for the save directory `dir`, taking the files from
   * `before` to `after` with reply `r`: Schema and BackupList are answered without a password
   * and without writing (a malformed schema file panics); every other message is the handler's.
   */
  ghost predicate Answered(env: Env, locked: set<FilePath>, dir: seq<string>, before: FileMap, after: FileMap,
                           message: Message, d: Draws, r: Result<Output, Error>)
  {
    (message.Schema? || message.BackupList? ==> after == before) &&
    (message.Schema? ==>
      r == (if ReadSchema(before, dir).Ok? then Ok(SchemaOf(ReadSchema(before, dir).value)) else Err(Panic))) &&
    (message.BackupList? ==>
      r.Ok? && r.value.BackupFiles? && forall t :: t in r.value.stamps <==> t in ListedStamps(before, dir, BACKUP)) &&
    (!message.Schema? && !message.BackupList? ==>
      VaultProtocol.Receive(env, locked, dir, before, message, d) == Response(after, r))
  }

  /** `VaultInterface`: one save directory, answering the requests that need no password itself. */
  class VaultInterface {
    const env: Env
    const store: FileStore
    const dir: seq<string>

    constructor (env: Env, store: FileStore, dir: seq<string>)
      ensures this.env == env && this.store == store && this.dir == dir
    {
      this.env := env;
      this.store := store;
      this.dir := dir;
    }

    /** `get_schema`: a missing schema file gives the empty schema; a malformed one panics. */
    method GetSchema() returns (r: Result<Schemas.Schema, Error>)
      ensures r == ReadSchema(store.files, dir)
      ensures SchemaPath(dir) !in store.files ==> r == Ok(Schemas.Schema(map[]))
    {
      var blob := store.Read(SchemaPath(dir));
      if blob.Err? {
        return Ok(Schemas.Schema(map[]));
      }
      match blob.value {
        case SchemaDoc(s) => r := Ok(s);
        case _ => r := Err(Panic);
      }
    }

    /** `backup_file_all`: the stamp of every backup file, in listing order. */
    method BackupFileAll() returns (stamps: seq<Timestamp>)
      ensures forall t :: t in stamps <==> t in ListedStamps(store.files, dir, BACKUP)
    {
      var entries := store.Glob(dir, BACKUP);
      GlobNamesSplit(entries, dir, BACKUP);
      AllKeepsParsed(entries);
      ListingStamps(entries, store.files, dir, BACKUP);
      var all := All(entries);
      stamps := all.value;
    }

    /**
     * `VaultInterface::receive`: Schema and BackupList are answered here without a password and
     * without writing; every other message goes to the handler.
     */
    method Receive(message: Message, d: Draws) returns (r: Result<Output, Error>)
      modifies store
      ensures Answered(env, store.locked, dir, old(store.files), store.files, message, d, r)
    {
      match message {
        case Schema =>
          var schema := GetSchema();
          r := if schema.Ok? then Ok(SchemaOf(schema.value)) else Err(Panic);
        case BackupList =>
          var stamps := BackupFileAll();
          r := Ok(BackupFiles(stamps));
        case _ =>
          r := HandlerReceive(env, store, dir, message, d);
      }
    }
  }
}
