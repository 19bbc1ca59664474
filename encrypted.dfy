/**
 * Password-encrypted payloads (src/vault/encrypted.rs). Key derivation (Argon2) and
 * authenticated encryption (AES-256-GCM with a random nonce) are not modelled: they are opaque
 * functions, and what the storage protocol needs of them is stated as explicit hypotheses.
 */
module Encryption {
  import opened Wrappers
  import opened Errors

  /** A base64 salt string as stored next to the ciphertext. */
  type Salt = string
  type Password = string
  /** A 256-bit AES key. */
  type Key = seq<bv8>

  /** `Encrypted<Data>`: the nonce and the ciphertext. */
  datatype Encrypted = Encrypted(nonce: seq<bv8>, data: seq<bv8>)

  /** Serialise-and-encrypt and decrypt-and-deserialise for one payload type. */
  datatype Cipher<!T> = Cipher(encrypt: (T, Key) -> Option<Encrypted>, decrypt: (Encrypted, Key) -> Option<T>)

  /** Argon2 key derivation from a salt and a password. */
  type Kdf = (Salt, Password) -> Key

  /** Decrypting with the key used for encryption gives the payload back. */
  ghost predicate RoundTrips<T(!new)>(c: Cipher<T>)
  {
    forall x: T, k: Key :: c.encrypt(x, k).Some? ==> c.decrypt(c.encrypt(x, k).value, k) == Some(x)
  }

  /** Decrypting with any other key fails authentication. */
  ghost predicate WrongKeyFails<T(!new)>(c: Cipher<T>)
  {
    forall x: T, k: Key, k2: Key :: c.encrypt(x, k).Some? && k2 != k ==> c.decrypt(c.encrypt(x, k).value, k2).None?
  }

  /** Different salts give different keys for the same password. */
  ghost predicate SaltsSeparate(kdf: Kdf)
  {
    forall s1: Salt, s2: Salt, p: Password :: s1 != s2 ==> kdf(s1, p) != kdf(s2, p)
  }

  /** `Encrypted::encrypt`: a failure is an EncryptionError. */
  function Seal<T>(c: Cipher<T>, x: T, k: Key): (r: Result<Encrypted, Error>)
    ensures r.Err? <==> c.encrypt(x, k).None?
    ensures r.Err? ==> r.error == EncryptionError
    ensures r.Ok? ==> Some(r.value) == c.encrypt(x, k)
  {
    match c.encrypt(x, k)
    case None => Err(EncryptionError)
    case Some(e) => Ok(e)
  }

  /** `Encrypted::decrypt` followed by deserialisation: a failure is a DecryptionError. */
  function Unseal<T>(c: Cipher<T>, e: Encrypted, k: Key): (r: Result<T, Error>)
    ensures r.Err? <==> c.decrypt(e, k).None?
    ensures r.Err? ==> r.error == DecryptionError
    ensures r.Ok? ==> Some(r.value) == c.decrypt(e, k)
  {
    match c.decrypt(e, k)
    case None => Err(DecryptionError)
    case Some(x) => Ok(x)
  }

  /** What a successful seal produces opens again under the same key... */
  lemma SealUnseal<T(!new)>(c: Cipher<T>, x: T, k: Key)
    requires RoundTrips(c) && Seal(c, x, k).Ok?
    ensures Unseal(c, Seal(c, x, k).value, k) == Ok(x)
  {
  }

  /** ...and under no other key. */
  lemma SealWrongKey<T(!new)>(c: Cipher<T>, x: T, k: Key, k2: Key)
    requires WrongKeyFails(c) && Seal(c, x, k).Ok? && k2 != k
    ensures Unseal(c, Seal(c, x, k).value, k2) == Err(DecryptionError)
  {
  }

  /** The serialised form of a `PasswordEncrypted`, as written to a file. */
  datatype Envelope = Envelope(data: Encrypted, salt: Salt)

  /** `PasswordEncrypted<Data>`: ciphertext plus the salt its key was derived from. */
  class PasswordEncrypted<T> {
    var data: Encrypted
    var salt: Salt

    constructor (data: Encrypted, salt: Salt)
      ensures this.data == data && this.salt == salt
    {
      this.data := data;
      this.salt := salt;
    }

    /** The value written to disk. */
    function Contents(): (r: Envelope)
      reads this
      ensures r.data == data && r.salt == salt
    {
      Envelope(data, salt)
    }

    /** `SecureData::key`: the key for `password` under the stored salt. */
    function KeyFor(kdf: Kdf, password: Password): Key
      reads this
    {
      kdf(salt, password)
    }

    /**
     * `update`: re-encrypts `payload` under `key` and keeps the salt; on an encryption failure
     * the error is returned and nothing changes.
     */
    method Update(c: Cipher<T>, payload: T, key: Key) returns (r: Outcome<Error>)
      modifies this
      ensures salt == old(salt)
      ensures r.Pass? <==> Seal(c, payload, key).Ok?
      ensures r.Pass? ==> data == Seal(c, payload, key).value
      ensures r.Fail? ==> r.error == EncryptionError && data == old(data)
    {
      var sealed := Seal(c, payload, key);
      if sealed.Err? {
        return Fail(sealed.error);
      }
      data := sealed.value;
      r := Pass;
    }
  }

  /**
   * `VaultEncrypted::new` / `RecordEncrypted::new`: `salt` is the freshly drawn salt and
   * `empty` the new empty payload; the key is derived from that salt and the password.
   */
  method New<T>(kdf: Kdf, c: Cipher<T>, password: Password, empty: T, salt: Salt)
    returns (r: Result<PasswordEncrypted<T>, Error>)
    ensures r.Err? <==> Seal(c, empty, kdf(salt, password)).Err?
    ensures r.Err? ==> r.error == EncryptionError
    ensures r.Ok? ==>
      fresh(r.value) && r.value.salt == salt && r.value.data == Seal(c, empty, kdf(salt, password)).value
  {
    var key := kdf(salt, password);
    r := FromPayload(c, salt, key, empty);
  }

  /** `VaultEncrypted::from_vault`: the given salt and an encryption of `payload` under `key`. */
  method FromPayload<T>(c: Cipher<T>, salt: Salt, key: Key, payload: T)
    returns (r: Result<PasswordEncrypted<T>, Error>)
    ensures r.Err? <==> Seal(c, payload, key).Err?
    ensures r.Err? ==> r.error == EncryptionError
    ensures r.Ok? ==> fresh(r.value) && r.value.salt == salt && r.value.data == Seal(c, payload, key).value
  {
    var sealed := Seal(c, payload, key);
    if sealed.Err? {
      return Err(sealed.error);
    }
    var v := new PasswordEncrypted(sealed.value, salt);
    r := Ok(v);
  }
}
