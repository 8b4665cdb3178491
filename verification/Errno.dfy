/**
  The error number the C library of hw3 returns and the kernel answers with.
 */
module Errno {
  const EINVAL: int := 22
}
