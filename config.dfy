/** The fixed sizes and descriptor numbers that the harness shares with the
    instrumentation compiled into the target (config.h). */
module Config {

  /** An unsigned 8-bit hit counter of the coverage bitmap. */
  type u8 = bv8

  /** An unsigned 32-bit machine integer, kept as an int in range. */
  type u32 = x: int | 0 <= x < 0x1_0000_0000

  /** A signed 32-bit machine integer (a process id or a wait status). */
  type s32 = x: int | -0x8000_0000 <= x < 0x8000_0000

  /** The bitmap holds 2^MAP_SIZE_POW2 counters, one per tuple id. */
  const MAP_SIZE_POW2: nat := 14
  const MAP_SIZE: nat := 16384

  /** The fork server reads commands from FORKSRV_FD and writes its status
      messages to FORKSRV_FD + 1. */
  const FORKSRV_FD: nat := 198

  /** Every handshake message is one 4-byte word. */
  const MSG_SIZE: nat := 4
}
