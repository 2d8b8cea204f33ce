/**
 * Protocol constants of the Tinkla relay: the telemetry-frame bit masks, the
 * vendor control-request codes with their data-stage lengths, the open()
 * result codes, the descriptor limits and the descriptor-table geometry.
 */
module RelayProtocol {

  import opened Wrappers

  newtype u16 = x: int | 0 <= x < 0x1_0000

  // Telemetry frame, byte 0
  const REL_GEAR_IN_NEUTRAL: bv8 := 1
  const REL_OPTION1_ON: bv8 := 2
  const REL_OPTION2_ON: bv8 := 4
  const REL_OPTION3_ON: bv8 := 8
  const REL_OPTION4_ON: bv8 := 16
  const REL_CAR_ON: bv8 := 32
  const REL_GEAR_IN_REVERSE: bv8 := 64
  const REL_GEAR_IN_FORWARD: bv8 := 128
  // Telemetry frame, byte 1
  const REL_BRAKE_HOLD: bv8 := 1
  const REL_LEFT_TURN_SIGNAL: bv8 := 2
  const REL_RIGHT_TURN_SIGNAL: bv8 := 4
  const REL_BRAKE_PRESSED: bv8 := 8
  const REL_HIGHBEAMS_ON: bv8 := 16
  const REL_LIGHT_ON: bv8 := 32
  const REL_BELOW_20MPH: bv8 := 64
  const REL_USE_IMPERIAL_FOR_SPEED: bv8 := 128
  // Telemetry frame, byte 2
  const REL_TPMS_ALERT_ON: bv8 := 1
  const REL_LEFT_STEERING_ANGLE_ABOVE_45DEG: bv8 := 2
  const REL_RIGHT_STEERING_ANGLE_ABOVE_45DEG: bv8 := 4
  const REL_AP_ON: bv8 := 8
  const REL_CAR_CHARGING: bv8 := 16
  const REL_LEFT_SIDE_BSM: bv8 := 32
  const REL_RIGHT_SIDE_BSM: bv8 := 64
  const REL_TACC_ONLY_ACTIVE: bv8 := 128
  // Telemetry frame, byte 8 (bits 0-4 speed limit / 5, bits 5-6 ACC status)
  const REL_AP_AVAILABLE: bv8 := 128
  const SPEED_LIMIT_FIELD: bv8 := 0x1F
  const ACC_STATUS_SHIFT: bv8 := 5
  const ACC_STATUS_FIELD: bv8 := 0x03

  // Telemetry fetch
  const GET_TINKLA_RELAY_DATA: bv8 := 0xFE
  const GET_TINKLA_RELAY_DATA_SIZE: u16 := 0x0a

  // Default USB identifiers
  const VID: u16 := 0xbbaa
  const PID: u16 := 0xddcc

  // Results of open()
  const SUCCESS: int := 0
  const ERROR_INIT: int := 1
  const ERROR_NOT_FOUND: int := 2
  const ERROR_BUSY: int := 3

  // Maximum lengths, in UTF-16 code units, of the string descriptors
  const DESCMXL_MANUFACTURER: nat := 62
  const DESCMXL_PRODUCT: nat := 62
  const DESCMXL_SERIAL: nat := 30

  // bmRequestType of vendor requests
  const GET: bv8 := 0x80
  const SET: bv8 := 0x20

  // Vendor commands and their data-stage lengths
  const GET_USB_CONFIG: bv8 := 0x60
  const GET_USB_CONFIG_WLEN: u16 := 0x0009
  const SET_USB_CONFIG: bv8 := 0x61
  const SET_USB_CONFIG_WLEN: u16 := 0x000a
  const GET_MANUFACTURING_STRING_1: bv8 := 0x62
  const GET_MANUFACTURING_STRING_1_WLEN: u16 := 0x0040
  const SET_MANUFACTURING_STRING_1: bv8 := 0x63
  const SET_MANUFACTURING_STRING_1_WLEN: u16 := 0x0040
  const GET_MANUFACTURING_STRING_2: bv8 := 0x64
  const GET_MANUFACTURING_STRING_2_WLEN: u16 := 0x0040
  const SET_MANUFACTURING_STRING_2: bv8 := 0x65
  const SET_MANUFACTURING_STRING_2_WLEN: u16 := 0x0040
  const GET_PRODUCT_STRING_1: bv8 := 0x66
  const GET_PRODUCT_STRING_1_WLEN: u16 := 0x0040
  const SET_PRODUCT_STRING_1: bv8 := 0x67
  const SET_PRODUCT_STRING_1_WLEN: u16 := 0x0040
  const GET_PRODUCT_STRING_2: bv8 := 0x68
  const GET_PRODUCT_STRING_2_WLEN: u16 := 0x0040
  const SET_PRODUCT_STRING_2: bv8 := 0x69
  const SET_PRODUCT_STRING_2_WLEN: u16 := 0x0040
  const GET_SERIAL_STRING: bv8 := 0x6a
  const GET_SERIAL_STRING_WLEN: u16 := 0x0040
  const SET_SERIAL_STRING: bv8 := 0x6b
  const SET_SERIAL_STRING_WLEN: u16 := 0x0040

  // Descriptor-table geometry used by getDescGeneric()
  const DESC_TBLSIZE: u16 := 0x0040
  const DESC_MAXIDX: nat := DESC_TBLSIZE as nat - 2
  const DESC_IDXINCR: nat := DESC_TBLSIZE as nat - 1

  /** The eight masks of one telemetry flag byte, listed from bit 0 up. */
  const BYTE0_MASKS: seq<bv8> := [REL_GEAR_IN_NEUTRAL, REL_OPTION1_ON, REL_OPTION2_ON, REL_OPTION3_ON,
                                  REL_OPTION4_ON, REL_CAR_ON, REL_GEAR_IN_REVERSE, REL_GEAR_IN_FORWARD]
  const BYTE1_MASKS: seq<bv8> := [REL_BRAKE_HOLD, REL_LEFT_TURN_SIGNAL, REL_RIGHT_TURN_SIGNAL, REL_BRAKE_PRESSED,
                                  REL_HIGHBEAMS_ON, REL_LIGHT_ON, REL_BELOW_20MPH, REL_USE_IMPERIAL_FOR_SPEED]
  const BYTE2_MASKS: seq<bv8> := [REL_TPMS_ALERT_ON, REL_LEFT_STEERING_ANGLE_ABOVE_45DEG,
                                  REL_RIGHT_STEERING_ANGLE_ABOVE_45DEG, REL_AP_ON, REL_CAR_CHARGING,
                                  REL_LEFT_SIDE_BSM, REL_RIGHT_SIDE_BSM, REL_TACC_ONLY_ACTIVE]

  /** The masks of a flag byte partition it: mask k is exactly bit k. */
  predicate PartitionsByte(masks: seq<bv8>)
  {
    |masks| == 8 &&
    (forall k :: 0 <= k < 8 ==> masks[k] == 1 << k) &&
    masks[0] | masks[1] | masks[2] | masks[3] | masks[4] | masks[5] | masks[6] | masks[7] == 0xFF
  }

  lemma FlagMasksPartitionTheirBytes()
    ensures PartitionsByte(BYTE0_MASKS)
    ensures PartitionsByte(BYTE1_MASKS)
    ensures PartitionsByte(BYTE2_MASKS)
  {
  }

  /** Byte 8 holds three disjoint fields that together cover it. */
  lemma Byte8FieldsAreDisjoint()
    ensures REL_AP_AVAILABLE & SPEED_LIMIT_FIELD == 0
    ensures REL_AP_AVAILABLE & (ACC_STATUS_FIELD << ACC_STATUS_SHIFT) == 0
    ensures SPEED_LIMIT_FIELD & (ACC_STATUS_FIELD << ACC_STATUS_SHIFT) == 0
    ensures REL_AP_AVAILABLE | SPEED_LIMIT_FIELD | (ACC_STATUS_FIELD << ACC_STATUS_SHIFT) == 0xFF
  {
  }

  /** Each SET command is its GET command plus one; each continuation-table command is its first-table command plus two. */
  lemma CommandCodeLayout()
    ensures SET_USB_CONFIG == GET_USB_CONFIG + 1
    ensures SET_MANUFACTURING_STRING_1 == GET_MANUFACTURING_STRING_1 + 1
    ensures SET_MANUFACTURING_STRING_2 == GET_MANUFACTURING_STRING_2 + 1
    ensures SET_PRODUCT_STRING_1 == GET_PRODUCT_STRING_1 + 1
    ensures SET_PRODUCT_STRING_2 == GET_PRODUCT_STRING_2 + 1
    ensures SET_SERIAL_STRING == GET_SERIAL_STRING + 1
    ensures GET_MANUFACTURING_STRING_2 == GET_MANUFACTURING_STRING_1 + 2
    ensures GET_PRODUCT_STRING_2 == GET_PRODUCT_STRING_1 + 2
    ensures SET_MANUFACTURING_STRING_2 == SET_MANUFACTURING_STRING_1 + 2
    ensures SET_PRODUCT_STRING_2 == SET_PRODUCT_STRING_1 + 2
  {
  }

  /** Data-stage length of each vendor command, as a lookup table. */
  function CommandLength(command: bv8): (r: Option<u16>)
    ensures r.Some? <==> (0x60 <= command <= 0x6b || command == GET_TINKLA_RELAY_DATA)
  {
    if command == GET_USB_CONFIG then Some(GET_USB_CONFIG_WLEN)
    else if command == SET_USB_CONFIG then Some(SET_USB_CONFIG_WLEN)
    else if command == GET_MANUFACTURING_STRING_1 then Some(GET_MANUFACTURING_STRING_1_WLEN)
    else if command == SET_MANUFACTURING_STRING_1 then Some(SET_MANUFACTURING_STRING_1_WLEN)
    else if command == GET_MANUFACTURING_STRING_2 then Some(GET_MANUFACTURING_STRING_2_WLEN)
    else if command == SET_MANUFACTURING_STRING_2 then Some(SET_MANUFACTURING_STRING_2_WLEN)
    else if command == GET_PRODUCT_STRING_1 then Some(GET_PRODUCT_STRING_1_WLEN)
    else if command == SET_PRODUCT_STRING_1 then Some(SET_PRODUCT_STRING_1_WLEN)
    else if command == GET_PRODUCT_STRING_2 then Some(GET_PRODUCT_STRING_2_WLEN)
    else if command == SET_PRODUCT_STRING_2 then Some(SET_PRODUCT_STRING_2_WLEN)
    else if command == GET_SERIAL_STRING then Some(GET_SERIAL_STRING_WLEN)
    else if command == SET_SERIAL_STRING then Some(SET_SERIAL_STRING_WLEN)
    else if command == GET_TINKLA_RELAY_DATA then Some(GET_TINKLA_RELAY_DATA_SIZE)
    else None
  }

  /** Every string command moves one whole descriptor table; configuration moves 9 or 10 bytes, telemetry 10. */
  lemma CommandLengthsMatchGeometry(command: bv8)
    ensures 0x62 <= command <= 0x6b ==> CommandLength(command) == Some(DESC_TBLSIZE)
    ensures CommandLength(GET_USB_CONFIG) == Some(9) && CommandLength(SET_USB_CONFIG) == Some(10)
    ensures CommandLength(GET_TINKLA_RELAY_DATA) == Some(10)
  {
  }

  /** The descriptor geometry: a 64-byte table, index ceiling 62, continuation step 63. */
  lemma DescriptorGeometry()
    ensures DESC_MAXIDX == 62 && DESC_IDXINCR == 63
    ensures DESC_IDXINCR == DESC_MAXIDX + 1
  {
  }

  /** The four open() results are distinct values 0..3. */
  lemma OpenResultsDistinct()
    ensures [SUCCESS, ERROR_INIT, ERROR_NOT_FOUND, ERROR_BUSY] == [0, 1, 2, 3]
  {
  }
}
