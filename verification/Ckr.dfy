/** Return codes of PKCS#11 v2.20 that the proxy itself names (pkcs11/pkcs11.h). */
module Ckr {
  const OK := 0
  const HOST_MEMORY := 2
  const GENERAL_ERROR := 5
  const ARGUMENTS_BAD := 7
  const ATTRIBUTE_SENSITIVE := 0x11
  const ATTRIBUTE_TYPE_INVALID := 0x12
  const DEVICE_ERROR := 0x30
  const DEVICE_MEMORY := 0x31
  const DEVICE_REMOVED := 0x32
  const MECHANISM_INVALID := 0x70
  const SESSION_CLOSED := 0xb0
  const SESSION_COUNT := 0xb1
  const SESSION_HANDLE_INVALID := 0xb3
  const BUFFER_TOO_SMALL := 0x150

  /** What each side reports when it cannot parse, and the daemon when it cannot build, a message. */
  const PARSE_ERROR := DEVICE_ERROR
  const PREP_ERROR := DEVICE_MEMORY
}
