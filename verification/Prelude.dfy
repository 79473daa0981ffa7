// Result types and the seal key, shared by the modules of the model.

module Prelude {

  datatype Option<+T> = None | Some(value: T)

  datatype Result<+T, +E> = Ok(value: T) | Err(error: E)

  /** A seal key: the secret outside the database that HMACs are made with. */
  datatype Key = Key(bytes: nat)
}
