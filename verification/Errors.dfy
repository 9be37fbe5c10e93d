/** The error codes that the driver leaves in `last_error`. */
module Errors {
  import opened Bytes

  const FAT_ERROR_OK: byte := 0
  const FAT_ERROR_NO_CARD: byte := 1
  const FAT_ERROR_TOO_MANY_OPEN_FILES: byte := 5
  const FAT_ERROR_CARD_REINSERTED: byte := 7
  const FAT_ERROR_CARD: byte := 8
  const FAT_ERROR_FS_BROKEN: byte := 9
  const FAT_ERROR_NOT_FOUND: byte := 10
  const FAT_ERROR_BAD_DESCRIPTOR: byte := 11
  const FAT_EOF: byte := 12
  const FAT_ERROR_RELATIVE_PATH: byte := 13
  const FAT_ERROR_STALE_DESCRIPTOR: byte := 15
  const FAT_ERROR_FILE_EXISTS: byte := 16
  const FAT_ERROR_DIR_FULL: byte := 17
}
