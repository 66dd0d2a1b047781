/** Widths and constants that several components share. */
module Numbers {

  const U8_MAX: nat := 0xFF
  const U32_MAX: nat := 0xFFFF_FFFF
  const U64_MAX: nat := 0xFFFF_FFFF_FFFF_FFFF

  /** The first context identifier a guest may have on the host's virtual sockets. */
  const FIRST_GUEST_CID: nat := 3

  ghost predicate Ascending(s: seq<nat>) {
    forall i, j | 0 <= i < j < |s| :: s[i] < s[j]
  }
}
