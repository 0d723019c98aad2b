/** Vocabulary shared by every module of the project. */
module Prelude {
  datatype Option<+T> = None | Some(value: T)

  /** One byte, as a bounded integer. */
  newtype byte = b: int | 0 <= b < 256

  type Bytes = seq<byte>
}
