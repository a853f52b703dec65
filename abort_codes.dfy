/**
 The SDO abort codes of CiA 301 that the client knows, each with the reason text
 it reports when a server aborts a transfer with that code.
 */
module AbortCodes {
  import opened Wrappers

  const Table: map<int, string> := map[
    0x0503_0000 := "Toggle bit not altered",
    0x0504_0000 := "SDO protocol timed out",
    0x0504_0001 := "Command specifier not valid or unknown",
    0x0504_0002 := "Invalid block size in block mode",
    0x0504_0003 := "Invalid sequence number in block mode",
    0x0504_0004 := "CRC error (block mode only)",
    0x0504_0005 := "Out of memory",
    0x0601_0000 := "Unsupported access to an object",
    0x0601_0001 := "Attempt to read a write only object",
    0x0601_0002 := "Attempt to write a read only object",
    0x0602_0000 := "Object does not exist",
    0x0604_0041 := "Object cannot be mapped to the PDO",
    0x0604_0042 := "Number and length of object to be mapped exceeds PDO length",
    0x0604_0043 := "General parameter incompatibility reasons",
    0x0604_0047 := "General internal incompatibility in device",
    0x0606_0000 := "Access failed due to hardware error",
    0x0607_0010 := "Data type does not match: length of service parameter does not match",
    0x0607_0012 := "Data type does not match: length of service parameter too high",
    0x0607_0013 := "Data type does not match: length of service parameter too short",
    0x0609_0011 := "Sub index does not exist",
    0x0609_0030 := "Invalid value for parameter (download only).",
    0x0609_0031 := "Value range of parameter written too high",
    0x0609_0032 := "Value range of parameter written too low",
    0x0609_0036 := "Maximum value is less than minimum value.",
    0x060A_0023 := "Resource not available: SDO connection",
    0x0800_0000 := "General error",
    0x0800_0020 := "Data cannot be transferred or stored to application",
    0x0800_0021 := "Data cannot be transferred or stored to application because of local control",
    0x0800_0022 := "Data cannot be transferred or stored to application because of present device state",
    0x0800_0023 := "Object dictionary not present or dynamic generation fails",
    0x0800_0024 := "No data available"
  ]

  /**
   The reason for an abort code. A code the table does not know has no reason:
   the lookup yields nothing (the JavaScript `undefined`), not a fallback text.
   */
  function Lookup(code: int): (r: Option<string>)
    ensures r.Some? <==> code in Table
    ensures r.Some? ==> r.value == Table[code] && r.value != ""
  {
    if code in Table then Some(Table[code]) else None
  }

  /** Every known code is a 32-bit unsigned value with a non-empty reason. */
  lemma TableIsWellFormed()
    ensures forall code :: code in Table ==> 0 <= code < 0x1_0000_0000 && Table[code] != ""
  {
  }

  /** Some codes of the CiA 301 abort transfer protocol map to their standard reasons. */
  lemma StandardReasons()
    ensures Lookup(0x0503_0000) == Some("Toggle bit not altered")
    ensures Lookup(0x0504_0000) == Some("SDO protocol timed out")
    ensures Lookup(0x0602_0000) == Some("Object does not exist")
    ensures Lookup(0x0609_0011) == Some("Sub index does not exist")
    ensures Lookup(0x0800_0000) == Some("General error")
  {
  }

  /** Codes outside the table, such as 0 or the unused 0x05040006, have no reason. */
  lemma UnknownCodes()
    ensures Lookup(0) == None
    ensures Lookup(0x0504_0006) == None
    ensures Lookup(0x1_0503_0000) == None
  {
  }
}
