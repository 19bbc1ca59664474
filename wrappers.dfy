/** Option, Result and Outcome: the Rust `Option<T>`, `Result<T, E>` and `Result<(), E>`. */
module Wrappers {

  datatype Option<+T> = None | Some(value: T)

  datatype Result<+T, +E> = Ok(value: T) | Err(error: E)

  /** A `Result<(), E>`: the step either passed or failed with an error. */
  datatype Outcome<+E> = Pass | Fail(error: E)

  /** The value a map holds for `k`, as Rust's `get`, `insert` and `remove` report it. */
  function MapGet<K, V>(m: map<K, V>, k: K): Option<V>
  {
    if k in m then Some(m[k]) else None
  }
}

/** The errors the storage engine reports (src/errors.rs and the anyhow errors it wraps). */
module Errors {

  datatype Error =
    | DecryptionError   // the AEAD tag did not authenticate: wrong password or corrupted blob
    | EncryptionError   // serialisation or encryption of a payload failed
    | WriteError        // a file could not be created or written
    | ReadError         // a file could not be opened or read
    | RemoveError       // a file or directory could not be removed
    | VaultExists       // ManagerError::VaultExists
    | VaultDoesNotExist // ManagerError::VaultDoesNotExist
    | Panic             // an `unwrap`/`expect` failed: the process aborts
    | InvalidName       // a vault name that is not one plain path component (a corrected check)
}
