/** The limits of a history response. */
module HistoryLimits {
  const HISTORY_CONTENT_CAP: nat := 16_384
  const HISTORY_PAGE_DEFAULT: nat := 50
  const HISTORY_PAGE_MAX: nat := 256
  const HISTORY_ENTRY_BYTE_MAX: nat := 512 * 1024
  const MAX_FRAME_BYTES: nat := 0x10_0000
  const HISTORY_FRAME_BUDGET: nat := MAX_FRAME_BYTES - 16_384
}
