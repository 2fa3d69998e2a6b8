// Constants and types that several parts of the kernel share.
module Common {
  const PAGE_SIZE: nat := 4096

  // errno.h
  const ENOSPC: int := 1
  const ENOENT: int := 2
  const EINVAL: int := 3
  const E2BIG: int := 7
  const ESPIPE: int := 8
  const ENOTDIR: int := 10
  const ENXIO: int := 12

  // A value that may be missing: a pointer that may be NULL, a call that may fail.
  datatype Option<+T> = None | Some(value: T)
}
