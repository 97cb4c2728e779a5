/** Limits of llimits.h. */
module Limits {
  /** The largest value of an int, less 2 for safety; an int has 32 bits. */
  const MAX_INT: nat := 0x7FFF_FFFD
}
