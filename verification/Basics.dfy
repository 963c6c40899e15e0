/** What several modules share. */
module Basics {

  datatype Option<T> = None | Some(value: T)

  type Byte = b: int | 0 <= b < 256

  /** A condition counted. */
  function One(b: bool): nat { if b then 1 else 0 }
}
