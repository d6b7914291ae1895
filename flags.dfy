/** File attribute flags as the scanners test them: `attrs & FLAG` for a
    single-bit flag. */
module Flags {

  const FileAttributeDirectory: nat := 0x10
  const FileAttributeReparsePoint: nat := 0x400

  /** `bool(attrs & flag)` for a flag that is a power of two. */
  predicate HasFlag(attrs: nat, flag: nat)
    requires flag > 0
  {
    (attrs / flag) % 2 == 1
  }
}
