/** Bytes as they travel over the SMTP connection and lie in files. */
module Bytes {
  newtype byte = x: int | 0 <= x < 256

  const DOT: byte := 46
  const CR: byte := 13
  const LF: byte := 10
}
