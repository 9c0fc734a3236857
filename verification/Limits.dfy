/** Sizes that several parts of the library share. */
module Limits {
  const MAX_NODES: nat := 10
  /** Sizes of the key and value buffers, terminator included. */
  const MAX_KEY_SIZE: nat := 255
  const MAX_VALUE_SIZE: nat := 1024
}
