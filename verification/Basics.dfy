/** Types shared by every component: block hashes, and the source's nil results and error returns. */
module Basics {
  /**
   A block hash stands for the 32-byte digest; hashes are compared by the source byte by byte, which on
   equal lengths is the order of the numbers they spell.
   */
  type Hash = nat

  datatype Option<+T> = None | Some(value: T)

  datatype Result<+T, +E> = Ok(value: T) | Err(error: E)
}
