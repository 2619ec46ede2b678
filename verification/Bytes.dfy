/** Bytes as the numbers they stand for. */
module Bytes {
  type Byte = b: nat | b < 256
}
