/**
 * The telemetry decoder: processDataMessage() turns the 10-byte frame fetched
 * by getData() into the relay's vehicle state. Bytes 0-2 are 24 flags, bytes 3,
 * 4 and 7 are passed through, bytes 5-6 are a big-endian signed 16-bit power
 * level, byte 8 packs the speed limit / 5, the ACC status and the
 * autopilot-available flag. Byte 9 is fetched but never read.
 */
module Telemetry {

  import opened RelayProtocol

  const FRAME_SIZE: nat := 10

  datatype TelemetryState = TelemetryState(
    // byte 0
    gearInNeutral: bool, option1On: bool, option2On: bool, option3On: bool,
    option4On: bool, carOn: bool, gearInReverse: bool, gearInForward: bool,
    // byte 1
    brakeHoldOn: bool, leftTurnSignal: bool, rightTurnSignal: bool, brakePressed: bool,
    highbeamsOn: bool, lightOn: bool, below20mph: bool, useImperial: bool,
    // byte 2
    tpmsAlertOn: bool, leftSteeringAbove45deg: bool, rightSteeringAbove45deg: bool, apOn: bool,
    carCharging: bool, leftSideBsm: bool, rightSideBsm: bool, taccOnlyActive: bool,
    // bytes 3-8
    brightness: bv8, speed: bv8, powerLvl: int, accSpeed: bv8,
    speedLimit: bv8, accStatus: bv8, apAvailable: bool)

  /** The field values the driver holds before the first decode (brightness starts at 100). */
  const INITIAL_STATE := TelemetryState(
    false, false, false, false, false, false, false, false,
    false, false, false, false, false, false, false, false,
    false, false, false, false, false, false, false, false,
    100, 0, 0, 0, 0, 0, false)

  /** C's `(b & mask) > 0` on an unsigned byte. */
  predicate Flag(b: bv8, mask: bv8)
  {
    b & mask != 0
  }

  /** The `int16_t` reading of a 16-bit pattern (two's complement). */
  function Int16(raw: int): (v: int)
    requires 0 <= raw < 0x10000
    ensures -0x8000 <= v < 0x8000
    ensures v % 0x10000 == raw
  {
    if raw < 0x8000 then raw else raw - 0x10000
  }

  /** processDataMessage(): decode a frame into the telemetry state. */
  function DecodeFrame(frame: seq<bv8>): TelemetryState
    requires |frame| == FRAME_SIZE
  {
    var b0, b1, b2, b8 := frame[0], frame[1], frame[2], frame[8];
    TelemetryState(
      Flag(b0, REL_GEAR_IN_NEUTRAL), Flag(b0, REL_OPTION1_ON), Flag(b0, REL_OPTION2_ON),
      Flag(b0, REL_OPTION3_ON), Flag(b0, REL_OPTION4_ON), Flag(b0, REL_CAR_ON),
      Flag(b0, REL_GEAR_IN_REVERSE), Flag(b0, REL_GEAR_IN_FORWARD),
      Flag(b1, REL_BRAKE_HOLD), Flag(b1, REL_LEFT_TURN_SIGNAL), Flag(b1, REL_RIGHT_TURN_SIGNAL),
      Flag(b1, REL_BRAKE_PRESSED), Flag(b1, REL_HIGHBEAMS_ON), Flag(b1, REL_LIGHT_ON),
      Flag(b1, REL_BELOW_20MPH), Flag(b1, REL_USE_IMPERIAL_FOR_SPEED),
      Flag(b2, REL_TPMS_ALERT_ON), Flag(b2, REL_LEFT_STEERING_ANGLE_ABOVE_45DEG),
      Flag(b2, REL_RIGHT_STEERING_ANGLE_ABOVE_45DEG), Flag(b2, REL_AP_ON), Flag(b2, REL_CAR_CHARGING),
      Flag(b2, REL_LEFT_SIDE_BSM), Flag(b2, REL_RIGHT_SIDE_BSM), Flag(b2, REL_TACC_ONLY_ACTIVE),
      frame[3],
      frame[4],
      PowerLevel(frame[5], frame[6]),
      frame[7],
      SpeedLimit(b8),
      AccStatus(b8),
      Flag(b8, REL_AP_AVAILABLE))
  }

  /**
   * What processDataMessage() reads out of the scalar bytes: brightness,
   * speed and ACC speed verbatim, the power level as the int16_t of bytes
   * 5-6, and byte 8 as speed limit / 5 in bits 0-4, ACC status in bits 5-6
   * and the autopilot-available flag in bit 7.
   */
  lemma DecodeFrameFields(frame: seq<bv8>)
    requires |frame| == FRAME_SIZE
    ensures var r := DecodeFrame(frame);
            r.speedLimit % 5 == 0 && r.speedLimit <= 155 && r.accStatus <= 3 &&
            frame[8] == r.speedLimit / 5 + 32 * r.accStatus + (if r.apAvailable then 128 else 0) &&
            -0x8000 <= r.powerLvl < 0x8000 &&
            r.powerLvl % 0x10000 == frame[5] as int * 256 + frame[6] as int &&
            r.brightness == frame[3] && r.speed == frame[4] && r.accSpeed == frame[7]
  {
  }

  /** Bytes 5-6: `(int16_t)((b5 << 8) | b6)`; on the promoted ints the two operands share no bit. */
  function PowerLevel(hi: bv8, lo: bv8): int
  {
    Int16(hi as int * 256 + lo as int)
  }

  /** Byte 8, bits 0-4, scaled by 5. */
  function SpeedLimit(b8: bv8): bv8
  {
    5 * (b8 & SPEED_LIMIT_FIELD)
  }

  /** Byte 8, bits 5-6. */
  function AccStatus(b8: bv8): bv8
  {
    (b8 >> ACC_STATUS_SHIFT) & ACC_STATUS_FIELD
  }

  /** The states a frame can decode to: the ranges of the packed fields. */
  predicate WellFormed(s: TelemetryState)
  {
    s.speedLimit % 5 == 0 && s.speedLimit <= 155 && s.accStatus <= 3 &&
    -0x8000 <= s.powerLvl < 0x8000
  }

  /** Packs eight flags with their masks, bit 0 first. */
  function PackFlags(f0: bool, f1: bool, f2: bool, f3: bool, f4: bool, f5: bool, f6: bool, f7: bool,
                     masks: seq<bv8>): bv8
    requires |masks| == 8
  {
    (if f0 then masks[0] else 0) | (if f1 then masks[1] else 0) |
    (if f2 then masks[2] else 0) | (if f3 then masks[3] else 0) |
    (if f4 then masks[4] else 0) | (if f5 then masks[5] else 0) |
    (if f6 then masks[6] else 0) | (if f7 then masks[7] else 0)
  }

  /** The inverse of processDataMessage(): lay the state out as a frame, with `spare` as byte 9. */
  function EncodeFrame(s: TelemetryState, spare: bv8): (frame: seq<bv8>)
    requires WellFormed(s)
    ensures |frame| == FRAME_SIZE && frame[9] == spare
  {
    [ PackFlags(s.gearInNeutral, s.option1On, s.option2On, s.option3On,
                s.option4On, s.carOn, s.gearInReverse, s.gearInForward, BYTE0_MASKS),
      PackFlags(s.brakeHoldOn, s.leftTurnSignal, s.rightTurnSignal, s.brakePressed,
                s.highbeamsOn, s.lightOn, s.below20mph, s.useImperial, BYTE1_MASKS),
      PackFlags(s.tpmsAlertOn, s.leftSteeringAbove45deg, s.rightSteeringAbove45deg, s.apOn,
                s.carCharging, s.leftSideBsm, s.rightSideBsm, s.taccOnlyActive, BYTE2_MASKS),
      s.brightness,
      s.speed,
      PowerHigh(s.powerLvl),
      PowerLow(s.powerLvl),
      s.accSpeed,
      PackByte8(s.speedLimit, s.accStatus, s.apAvailable),
      spare ]
  }

  /** High byte of the 16-bit two's-complement pattern of `v`. */
  function PowerHigh(v: int): bv8
    requires -0x8000 <= v < 0x8000
  {
    (((v + 0x10000) % 0x10000) / 256) as bv8
  }

  /** Low byte of the 16-bit two's-complement pattern of `v`. */
  function PowerLow(v: int): bv8
    requires -0x8000 <= v < 0x8000
  {
    (((v + 0x10000) % 0x10000) % 256) as bv8
  }

  /** Byte 8 from the speed limit, the ACC status and the autopilot-available flag. */
  function PackByte8(limit: bv8, acc: bv8, ap: bool): bv8
    requires limit <= 155 && acc <= 3
  {
    (limit / 5) | (acc << ACC_STATUS_SHIFT) | (if ap then REL_AP_AVAILABLE else 0)
  }

  /** Re-packing the eight flags of a byte with masks that partition it gives back the byte. */
  lemma FlagsRepack(b: bv8, masks: seq<bv8>)
    requires PartitionsByte(masks)
    ensures PackFlags(Flag(b, masks[0]), Flag(b, masks[1]), Flag(b, masks[2]), Flag(b, masks[3]),
                      Flag(b, masks[4]), Flag(b, masks[5]), Flag(b, masks[6]), Flag(b, masks[7]), masks) == b
  {
    assert masks[0] == 1 && masks[1] == 2 && masks[2] == 4 && masks[3] == 8;
    assert masks[4] == 16 && masks[5] == 32 && masks[6] == 64 && masks[7] == 128;
  }

  /** Each flag of a packed byte reads back as the flag that was packed. */
  lemma FlagsUnpack(f0: bool, f1: bool, f2: bool, f3: bool, f4: bool, f5: bool, f6: bool, f7: bool,
                    masks: seq<bv8>)
    requires PartitionsByte(masks)
    ensures var b := PackFlags(f0, f1, f2, f3, f4, f5, f6, f7, masks);
            Flag(b, masks[0]) == f0 && Flag(b, masks[1]) == f1 && Flag(b, masks[2]) == f2 &&
            Flag(b, masks[3]) == f3 && Flag(b, masks[4]) == f4 && Flag(b, masks[5]) == f5 &&
            Flag(b, masks[6]) == f6 && Flag(b, masks[7]) == f7
  {
    assert masks[0] == 1 && masks[1] == 2 && masks[2] == 4 && masks[3] == 8;
    assert masks[4] == 16 && masks[5] == 32 && masks[6] == 64 && masks[7] == 128;
  }

  /** Splitting a 16-bit pattern into its high and low byte and joining them again is the identity. */
  lemma ByteSplitJoin(hi: bv8, lo: bv8)
    ensures var raw := hi as int * 256 + lo as int;
            0 <= raw < 0x10000 && raw / 256 == hi as int && raw % 256 == lo as int
  {
  }

  /** A byte converts to an integer and back unchanged. */
  lemma IntOfByte(b: bv8)
    ensures (b as int) as bv8 == b
  {
  }

  /** The 16-bit pattern of an int16_t reading is the pattern it was read from. */
  lemma Int16Pattern(pattern: int)
    requires 0 <= pattern < 0x10000
    ensures (Int16(pattern) + 0x10000) % 0x10000 == pattern
  {
    if pattern >= 0x8000 {
      assert Int16(pattern) + 0x10000 == pattern;
    } else {
      assert Int16(pattern) + 0x10000 == pattern + 0x10000;
    }
  }

  /** The big-endian bytes of the 16-bit pattern of `v`, read back as int16_t, give `v`. */
  lemma PowerRoundTrip(v: int)
    requires -0x8000 <= v < 0x8000
    ensures PowerLevel(PowerHigh(v), PowerLow(v)) == v
  {
    var raw := PowerHigh(v) as int * 256 + PowerLow(v) as int;
    PowerBytesJoin(v);
    Int16Of(raw, v);
    assert PowerLevel(PowerHigh(v), PowerLow(v)) == Int16(raw);
  }

  /** The int16_t reading of the 16-bit pattern of `v` is `v`. */
  lemma Int16Of(raw: int, v: int)
    requires -0x8000 <= v < 0x8000
    requires raw == if v < 0 then v + 0x10000 else v
    ensures Int16(raw) == v
  {
  }

  /** The high and low byte of the 16-bit pattern of `v` join back into that pattern. */
  lemma PowerBytesJoin(v: int)
    requires -0x8000 <= v < 0x8000
    ensures PowerHigh(v) as int * 256 + PowerLow(v) as int == if v < 0 then v + 0x10000 else v
  {
    var raw := (v + 0x10000) % 0x10000;
    ByteOfInt(raw / 256);
    ByteOfInt(raw % 256);
  }

  /** A value below 256 converts to a byte and back unchanged. */
  lemma ByteOfInt(x: int)
    requires 0 <= x < 256
    ensures (x as bv8) as int == x
  {
    if x < 128 {
      if x < 64 {} else {}
    } else {
      if x < 192 {} else {}
    }
  }

  /** The two bytes of a power reading are the high and low bytes of its 16-bit pattern. */
  lemma PowerBytesRoundTrip(hi: bv8, lo: bv8)
    ensures PowerHigh(PowerLevel(hi, lo)) == hi && PowerLow(PowerLevel(hi, lo)) == lo
  {
    Int16Pattern(hi as int * 256 + lo as int);
    PatternBytes(PowerLevel(hi, lo), hi, lo);
  }

  /** A level whose 16-bit pattern is hi * 256 + lo has high byte `hi` and low byte `lo`. */
  lemma PatternBytes(v: int, hi: bv8, lo: bv8)
    requires -0x8000 <= v < 0x8000
    requires (v + 0x10000) % 0x10000 == hi as int * 256 + lo as int
    ensures PowerHigh(v) == hi && PowerLow(v) == lo
  {
    var raw := (v + 0x10000) % 0x10000;
    assert raw / 256 == hi as int && raw % 256 == lo as int by { ByteSplitJoin(hi, lo); }
    ByteOfEqualInt(raw / 256, hi);
    ByteOfEqualInt(raw % 256, lo);
  }

  /** An integer equal to a byte's value converts to that byte. */
  lemma ByteOfEqualInt(x: int, b: bv8)
    requires x == b as int
    ensures x as bv8 == b
  {
    IntOfByte(b);
  }

  /** Byte 8 re-packed from its three decoded fields. */
  lemma Byte8Repack(b8: bv8)
    ensures PackByte8(SpeedLimit(b8), AccStatus(b8), Flag(b8, REL_AP_AVAILABLE)) == b8
  {
  }

  /** Byte 8's three fields read back from their packing. */
  lemma Byte8Unpack(limit: bv8, acc: bv8, ap: bool)
    requires limit % 5 == 0 && limit <= 155 && acc <= 3
    ensures SpeedLimit(PackByte8(limit, acc, ap)) == limit
    ensures AccStatus(PackByte8(limit, acc, ap)) == acc
    ensures Flag(PackByte8(limit, acc, ap), REL_AP_AVAILABLE) == ap
  {
  }

  lemma RepackFlagBytes(frame: seq<bv8>)
    requires |frame| == FRAME_SIZE
    ensures var e := EncodeFrame(DecodeFrame(frame), frame[9]);
            e[0] == frame[0] && e[1] == frame[1] && e[2] == frame[2]
  {
    FlagMasksPartitionTheirBytes();
    FlagsRepack(frame[0], BYTE0_MASKS);
    FlagsRepack(frame[1], BYTE1_MASKS);
    FlagsRepack(frame[2], BYTE2_MASKS);
  }

  lemma RepackScalarBytes(frame: seq<bv8>)
    requires |frame| == FRAME_SIZE
    ensures var e := EncodeFrame(DecodeFrame(frame), frame[9]);
            e[5] == frame[5] && e[6] == frame[6] && e[8] == frame[8]
  {
    PowerBytesRoundTrip(frame[5], frame[6]);
    Byte8Repack(frame[8]);
  }

  /** Re-packing the decoded fields gives back the frame: no bit of bytes 0-8 is lost or altered. */
  lemma EncodeDecode(frame: seq<bv8>)
    requires |frame| == FRAME_SIZE
    ensures WellFormed(DecodeFrame(frame))
    ensures EncodeFrame(DecodeFrame(frame), frame[9]) == frame
  {
    DecodeFrameFields(frame);
    RepackFlagBytes(frame);
    RepackScalarBytes(frame);
    var e := EncodeFrame(DecodeFrame(frame), frame[9]);
    assert forall k :: 0 <= k < FRAME_SIZE ==> e[k] == frame[k];
  }

  lemma UnpackFlagBytes(s: TelemetryState, spare: bv8)
    requires WellFormed(s)
    ensures var d := DecodeFrame(EncodeFrame(s, spare));
            d.gearInNeutral == s.gearInNeutral && d.option1On == s.option1On &&
            d.option2On == s.option2On && d.option3On == s.option3On &&
            d.option4On == s.option4On && d.carOn == s.carOn &&
            d.gearInReverse == s.gearInReverse && d.gearInForward == s.gearInForward &&
            d.brakeHoldOn == s.brakeHoldOn && d.leftTurnSignal == s.leftTurnSignal &&
            d.rightTurnSignal == s.rightTurnSignal && d.brakePressed == s.brakePressed &&
            d.highbeamsOn == s.highbeamsOn && d.lightOn == s.lightOn &&
            d.below20mph == s.below20mph && d.useImperial == s.useImperial &&
            d.tpmsAlertOn == s.tpmsAlertOn && d.leftSteeringAbove45deg == s.leftSteeringAbove45deg &&
            d.rightSteeringAbove45deg == s.rightSteeringAbove45deg && d.apOn == s.apOn &&
            d.carCharging == s.carCharging && d.leftSideBsm == s.leftSideBsm &&
            d.rightSideBsm == s.rightSideBsm && d.taccOnlyActive == s.taccOnlyActive
  {
    FlagMasksPartitionTheirBytes();
    UnpackByte0(s, spare);
    UnpackByte1(s, spare);
    UnpackByte2(s, spare);
  }

  lemma UnpackByte0(s: TelemetryState, spare: bv8)
    requires WellFormed(s) && PartitionsByte(BYTE0_MASKS)
    ensures var d := DecodeFrame(EncodeFrame(s, spare));
            d.gearInNeutral == s.gearInNeutral && d.option1On == s.option1On &&
            d.option2On == s.option2On && d.option3On == s.option3On &&
            d.option4On == s.option4On && d.carOn == s.carOn &&
            d.gearInReverse == s.gearInReverse && d.gearInForward == s.gearInForward
  {
    FlagsUnpack(s.gearInNeutral, s.option1On, s.option2On, s.option3On,
                s.option4On, s.carOn, s.gearInReverse, s.gearInForward, BYTE0_MASKS);
  }

  lemma UnpackByte1(s: TelemetryState, spare: bv8)
    requires WellFormed(s) && PartitionsByte(BYTE1_MASKS)
    ensures var d := DecodeFrame(EncodeFrame(s, spare));
            d.brakeHoldOn == s.brakeHoldOn && d.leftTurnSignal == s.leftTurnSignal &&
            d.rightTurnSignal == s.rightTurnSignal && d.brakePressed == s.brakePressed &&
            d.highbeamsOn == s.highbeamsOn && d.lightOn == s.lightOn &&
            d.below20mph == s.below20mph && d.useImperial == s.useImperial
  {
    FlagsUnpack(s.brakeHoldOn, s.leftTurnSignal, s.rightTurnSignal, s.brakePressed,
                s.highbeamsOn, s.lightOn, s.below20mph, s.useImperial, BYTE1_MASKS);
  }

  lemma UnpackByte2(s: TelemetryState, spare: bv8)
    requires WellFormed(s) && PartitionsByte(BYTE2_MASKS)
    ensures var d := DecodeFrame(EncodeFrame(s, spare));
            d.tpmsAlertOn == s.tpmsAlertOn && d.leftSteeringAbove45deg == s.leftSteeringAbove45deg &&
            d.rightSteeringAbove45deg == s.rightSteeringAbove45deg && d.apOn == s.apOn &&
            d.carCharging == s.carCharging && d.leftSideBsm == s.leftSideBsm &&
            d.rightSideBsm == s.rightSideBsm && d.taccOnlyActive == s.taccOnlyActive
  {
    FlagsUnpack(s.tpmsAlertOn, s.leftSteeringAbove45deg, s.rightSteeringAbove45deg, s.apOn,
                s.carCharging, s.leftSideBsm, s.rightSideBsm, s.taccOnlyActive, BYTE2_MASKS);
  }


  lemma UnpackScalars(s: TelemetryState, spare: bv8)
    requires WellFormed(s)
    ensures var d := DecodeFrame(EncodeFrame(s, spare));
            d.brightness == s.brightness && d.speed == s.speed && d.accSpeed == s.accSpeed &&
            d.powerLvl == s.powerLvl && d.speedLimit == s.speedLimit &&
            d.accStatus == s.accStatus && d.apAvailable == s.apAvailable
  {
    PowerRoundTrip(s.powerLvl);
    Byte8Unpack(s.speedLimit, s.accStatus, s.apAvailable);
  }

  /** Decoding a packed state gives back that state: the fields are independent. */
  lemma DecodeEncode(s: TelemetryState, spare: bv8)
    requires WellFormed(s)
    ensures DecodeFrame(EncodeFrame(s, spare)) == s
  {
    UnpackFlagBytes(s, spare);
    UnpackScalars(s, spare);
  }

  /** Byte 9 never affects any field. */
  lemma SpareByteIgnored(frame: seq<bv8>, x: bv8)
    requires |frame| == FRAME_SIZE
    ensures DecodeFrame(frame[9 := x]) == DecodeFrame(frame)
  {
  }

  /** Byte 8 = 0x63 decodes to speed limit 15 and the undocumented ACC status 3, which is kept, not rejected. */
  lemma AccStatusThreeIsReported(frame: seq<bv8>)
    requires |frame| == FRAME_SIZE && frame[8] == 0x63
    ensures DecodeFrame(frame).speedLimit == 15
    ensures DecodeFrame(frame).accStatus == 3
    ensures !DecodeFrame(frame).apAvailable
  {
  }
}
