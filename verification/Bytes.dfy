/** Bytes, as the log files hold them. */
module Bytes {

  newtype byte = x: int | 0 <= x < 256

  const NEWLINE: byte := 10
}
