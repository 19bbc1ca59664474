/**
 * What each step of the vault handler (src/vault/interface.rs) writes, keeps and returns,
 * stated over the protocol functions.
 */
module HandlerFacts {
  import opened Wrappers
  import opened Errors
  import opened Files
  import opened Storage
  import opened Encryption
  import opened Vaults
  import Commands
  import opened VaultProtocol
  import opened Recovery

  /** `files2` agrees with `files` everywhere except possibly at the paths in `touched`. */
  ghost predicate SameElsewhere(files: FileMap, files2: FileMap, touched: set<FilePath>)
  {
    forall p :: p !in touched ==> (p in files2 <==> p in files) && (p in files ==> files2[p] == files[p])
  }

  /**
   * `get_interface`: an existing vault file is decrypted with the key from its stored salt,
   * and a decryption failure is the error; without a vault file the new vault and its fresh
   * salt exist only in memory. The record is sealed under its own fresh salt.
   */
  lemma OpenFacts(env: Env, files: FileMap, dir: seq<string>, password: Password, d: Draws)
    ensures var r := Open(env, files, dir, password, d);
      (r.Ok? ==> r.value.record.salt == d.recordSalt && r.value.recordStamp == d.recordClock &&
                 r.value.key == env.kdf(r.value.sealed.salt, password)) &&
      (VaultPath(dir) in files && r.Ok? ==> OpenedFrom(env, files, dir, password, r.value)) &&
      (VaultPath(dir) in files && files[VaultPath(dir)].Sealed? &&
       Seal(env.records, [], env.kdf(d.recordSalt, password)).Ok? &&
       env.vaults.decrypt(files[VaultPath(dir)].envelope.data,
                          env.kdf(files[VaultPath(dir)].envelope.salt, password)).None? ==>
         r == Err(DecryptionError)) &&
      (VaultPath(dir) in files && !files[VaultPath(dir)].Sealed? ==> r.Err?) &&
      (VaultPath(dir) !in files && r.Ok? ==>
         r.value.vault == env.newVault && r.value.sealed.salt == d.vaultSalt &&
         Some(r.value.sealed.data) == env.vaults.encrypt(env.newVault, r.value.key))
  {
  }

  /**
   * `save` keeps the salt, key and record, re-encrypts the in-memory vault under the current
   * key, and writes the vault file and then the schema of that same vault; nothing else
   * changes, and an encryption failure or an unwritable vault file changes no file.
   */
  lemma SaveFacts(env: Env, locked: set<FilePath>, dir: seq<string>, files: FileMap, m: Mem)
    ensures var s := Save(env, locked, dir, files, m);
      s.mem == m.(sealed := s.mem.sealed) && s.mem.sealed.salt == m.sealed.salt &&
      (s.result.Ok? <==> Seal(env.vaults, m.vault, m.key).Ok? && VaultPath(dir) !in locked && SchemaPath(dir) !in locked) &&
      (s.result.Ok? ==>
         Some(s.mem.sealed.data) == env.vaults.encrypt(m.vault, m.key) &&
         s.files == files[VaultPath(dir) := Sealed(s.mem.sealed)][SchemaPath(dir) := SchemaDoc(env.schemaOf(m.vault))]) &&
      (Seal(env.vaults, m.vault, m.key).Err? || VaultPath(dir) in locked ==> s.files == files) &&
      SameElsewhere(files, s.files, {VaultPath(dir), SchemaPath(dir)})
  {
  }

  /**
   * `backup` writes one new file, the in-memory vault under the current salt and key, and
   * touches neither the handler nor any other file; with a round-tripping cipher the backup
   * opens with the same key to the same contents.
   */
  lemma BackupFacts(env: Env, locked: set<FilePath>, dir: seq<string>, files: FileMap, m: Mem, clock: Timestamp)
    ensures var b := MakeBackup(env, locked, dir, files, m, clock);
      b.mem == m &&
      (b.result.Ok? <==> Seal(env.vaults, m.vault, m.key).Ok? && BackupPath(dir, clock) !in locked) &&
      (b.result.Ok? ==>
         b.result.value == clock && BackupPath(dir, clock) in b.files &&
         b.files[BackupPath(dir, clock)] == Sealed(Envelope(Seal(env.vaults, m.vault, m.key).value, m.sealed.salt))) &&
      (b.result.Ok? && RoundTrips(env.vaults) ==>
         env.vaults.decrypt(b.files[BackupPath(dir, clock)].envelope.data, m.key) == Some(m.vault)) &&
      SameElsewhere(files, b.files, {BackupPath(dir, clock)})
  {
    var b := MakeBackup(env, locked, dir, files, m, clock);
    if b.result.Ok? && RoundTrips(env.vaults) {
      SealUnseal(env.vaults, m.vault, m.key);
    }
  }

  /**
   * `transaction`: on success the record file is gone and the vault and schema files hold the
   * vault with the record applied. On failure after the record was sealed and written, the
   * record is still on disk and opens to the transaction's record under the key that sealed
   * it. On failure before that, no file and not the vault has changed.
   */
  lemma TransactionFacts(env: Env, keying: Keying, locked: set<FilePath>, dir: seq<string>, files: FileMap,
                         m: Mem, commands: seq<Commands.Command>)
    requires RoundTrips(env.records)
    ensures var t := Transaction(env, keying, locked, dir, files, m, commands);
      var record := env.transact(m.vault, commands).1;
      var path := RecordPath(dir, m.recordStamp);
      var sealedOk := Seal(env.records, record, RecordKey(env, keying, m, m.record.salt)).Ok?;
      t.mem.key == m.key && t.mem.sealed.salt == m.sealed.salt && t.mem.record.salt == m.record.salt &&
      (t.result.Ok? ==>
         t.result.value == env.transact(m.vault, commands).0 &&
         t.mem.vault == env.applyRecord(m.vault, record) && path !in t.files &&
         t.files[VaultPath(dir)] == Sealed(t.mem.sealed) &&
         Some(t.mem.sealed.data) == env.vaults.encrypt(t.mem.vault, m.key) &&
         t.files[SchemaPath(dir)] == SchemaDoc(env.schemaOf(t.mem.vault))) &&
      (t.result.Err? && sealedOk && path !in locked ==>
         path in t.files && t.files[path] == Sealed(t.mem.record) &&
         env.records.decrypt(t.mem.record.data, RecordKey(env, keying, m, m.record.salt)) == Some(record)) &&
      (!sealedOk || path in locked ==> t.files == files && t.mem.vault == m.vault) &&
      SameElsewhere(files, t.files, {path, VaultPath(dir), SchemaPath(dir)})
  {
    LayoutDistinct(dir, m.recordStamp, 0);
    var t := Transaction(env, keying, locked, dir, files, m, commands);
    var (answers, record) := env.transact(m.vault, commands);
    var path := RecordPath(dir, m.recordStamp);
    var key := RecordKey(env, keying, m, m.record.salt);
    if Seal(env.records, record, key).Err? {
      assert t == Effect(files, m, Err(EncryptionError));
    } else {
      SealUnseal(env.records, record, key);
      var m1 := m.(record := Envelope(Seal(env.records, record, key).value, m.record.salt));
      if path in locked {
        assert t == Effect(files, m1, Err(WriteError));
      } else {
        var f1 := files[path := Sealed(m1.record)];
        var m2 := m1.(vault := env.applyRecord(m1.vault, record));
        SaveFacts(env, locked, dir, f1, m2);
        var saved := Save(env, locked, dir, f1, m2);
        assert path in saved.files && saved.files[path] == Sealed(m1.record);
        if saved.result.Err? {
          assert t == Effect(saved.files, saved.mem, Err(saved.result.error));
        } else {
          assert t == Effect(saved.files - {path}, saved.mem, Ok(answers));
        }
      }
    }
  }

  /** A loaded handler's key is the one derived from its vault's salt and the password. */
  lemma LoadKeyed(env: Env, keying: Keying, locked: set<FilePath>, dir: seq<string>, files: FileMap,
                  password: Password, d: Draws)
    ensures var loaded := Load(env, keying, locked, dir, files, password, d);
      loaded.result.Ok? ==> loaded.result.value.key == env.kdf(loaded.result.value.sealed.salt, password)
  {
    OpenFacts(env, files, dir, password, d);
    var open := Open(env, files, dir, password, d);
    if open.Ok? {
      match Latest(files, dir, RECORD) {
        case Err(_) =>
        case Ok(None) =>
        case Ok(Some(t)) =>
          var path := RecordPath(dir, t);
          var sealed := ReadEnvelope(files, path);
          if sealed.Ok? {
            var decrypted := Unseal(env.records, sealed.value.data, RecordKey(env, keying, open.value, sealed.value.salt));
            if decrypted.Ok? {
              SaveFacts(env, locked, dir, files, open.value.(vault := env.applyRecord(open.value.vault, decrypted.value)));
            }
          }
      }
    }
  }

  /**
   * Rotate: the reply names the backup just taken, which opens with the old password to the
   * loaded contents; the vault file then has the fresh salt and opens with the new password
   * to those same contents.
   */
  lemma RotateFacts(env: Env, locked: set<FilePath>, dir: seq<string>, files: FileMap,
                    password: Password, newPassword: Password, d: Draws)
    requires RoundTrips(env.vaults)
    ensures var rotated := Receive(env, locked, dir, files, Rotate(password, newPassword), d);
      rotated.result.Ok? ==>
        var backed := LoadAndBackup(env, locked, dir, files, password, d);
        backed.result.Ok? && rotated.result.value == BackupMade(d.backupClock) &&
        var contents := backed.result.value.0.vault;
        HoldsAt(env, rotated.files, BackupPath(dir, d.backupClock), password, contents) &&
        Holds(env, rotated.files, dir, newPassword, contents) &&
        rotated.files[VaultPath(dir)].envelope.salt == d.rotateSalt
  {
    var rotated := Receive(env, locked, dir, files, Rotate(password, newPassword), d);
    if rotated.result.Ok? {
      var backed := LoadAndBackup(env, locked, dir, files, password, d);
      var m := backed.result.value.0;
      LoadKeyed(env, VaultKey, locked, dir, files, password, d);
      var loaded := Load(env, VaultKey, locked, dir, files, password, d);
      BackupFacts(env, locked, dir, loaded.files, m, d.backupClock);
      var key := env.kdf(d.rotateSalt, newPassword);
      var data := Seal(env.vaults, env.newVault, key).value;
      var adopted := m.(sealed := Envelope(data, d.rotateSalt), key := key);
      SaveFacts(env, locked, dir, backed.files, adopted);
      SealUnseal(env.vaults, m.vault, key);
      LayoutDistinct(dir, 0, d.backupClock);
    }
  }
}
