/** Return values of the socket API, status values, and the poll cap, shared by every component. */
module Codes {
  const SOCK_OK := 1
  const SOCK_BUSY := 0
  const SOCKERR_SOCKNUM := -1
  const SOCKERR_SOCKOPT := -2
  const SOCKERR_SOCKINIT := -3
  const SOCKERR_SOCKCLOSED := -4
  const SOCKERR_SOCKMODE := -5
  const SOCKERR_SOCKFLAG := -6
  const SOCKERR_SOCKSTATUS := -7
  const SOCKERR_ARG := -10
  const SOCKERR_PORTZERO := -11
  const SOCKERR_IPINVALID := -12
  const SOCKERR_TIMEOUT := -13
  const SOCKERR_DEADLINE := -16
  const SOCKERR_IO := -3
  const SOCKERR_NOTREADY := -4
  const SOCKFATAL_PACKLEN := -1001

  const SR_CLOSED := 0x00
  const SR_INIT := 0x13
  const SR_LISTEN := 0x14
  const SR_ESTABLISHED := 0x17
  const SR_CLOSE_WAIT := 0x1C
  const SR_UDP := 0x22
  const SR_IPRAW := 0x32
  const SR_MACRAW := 0x42

  /** No wait polls more often than this. */
  const POLL_MAX := 100000
}
