// The result codes of the MAX3421E and the limits of the transfer layer.
module UsbCodes {
  import opened MachineInts

  const NAK: u8 := 4
  const TOGGLE_ERROR: u8 := 6
  const TIMEOUT: u8 := 14

  const RETRY_LIMIT: u8 := 3
  const XFER_TIMEOUT: nat := 5000

  // A call may outlast the answers seen so far; then it is still running.
  datatype Outcome = Running | Returned(rcode: u8)

  // The code that is returned after these answers: that of the last one.
  function LastCode(s: seq<u8>): u8 {
    if s == [] then 0 else s[|s| - 1]
  }
}
