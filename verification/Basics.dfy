/** Types shared by the models. */
module Basics {
  datatype Option<+T> = None | Some(value: T)

  datatype Result<+T, +E> = Ok(value: T) | Err(error: E)

  type AssetId = nat

  /** A byte string, which also stands for its own hash. */
  type Content = nat

  type Byte = b: int | 0 <= b < 256

  datatype Lifecycle = Active | Duplicate | Trashed | Purging
}
