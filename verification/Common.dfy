/** What several parts of the kernel share (inc/defs.h, inc/cpu.h). */
module Common {

  datatype Option<+T> = None | Some(value: T)

  /** cpu_mode_t. */
  datatype Mode = Kern | User

  const WORD: nat := 0x1_0000_0000_0000_0000             // 2^64
  const SMALL: nat := 0x1000

  /** Where every user task has its stack page and its arguments. */
  const DEFAULT_USER_STACK: nat := 0x7FFF_F000
  const DEFAULT_ARG_LOCATION: nat := 0x7000_0000
}
