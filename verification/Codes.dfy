/** Return codes shared by client and server (include/remi/remi-common.h). */
module Codes {
  const SUCCESS := 0
  const ERR_INVALID_ARG := -2
  const ERR_UNKNOWN_CLASS := -4
  const ERR_UNKNOWN_FILE := -5
  const ERR_MIGRATION := -9
  const ERR_CLASS_EXISTS := -10
  const ERR_FILE_EXISTS := -11
  const ERR_IO := -12
  const ERR_USER := -13
  const ERR_INVALID_OPID := -14

  /** One more than the largest size_t. */
  const SIZE_LIMIT: nat := 0x1_0000_0000_0000_0000

  /** One more than the largest off_t, which is signed. */
  const OFFSET_LIMIT: nat := 0x8000_0000_0000_0000

  datatype Option<+T> = None | Some(value: T)
}
