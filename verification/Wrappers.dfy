// The two result shapes the Rust code uses everywhere: `Option` and `Result`.
module Wrappers {
  datatype Option<+T> = None | Some(value: T)

  datatype Result<+T, +E> = Ok(value: T) | Err(error: E)
}
