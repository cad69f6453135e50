/** The kernel's fixed sizes. */
module Params {
  const MAXOPBLOCKS: nat := 10
  const LOGSIZE: nat := 30
}
