/** The error numbers of inc/error.h that the modelled calls return, negated. */
module Errors {
  const E_BAD_ENV := 2
  const E_INVAL := 3
  const E_NO_MEM := 4
  const E_NO_FREE_ENV := 5
  const E_IPC_NOT_RECV := 7
  const E_NO_DISK := 9
  const E_MAX_OPEN := 10
  const E_NOT_FOUND := 11
  const E_BAD_PATH := 12
  const E_FILE_EXISTS := 13
}
