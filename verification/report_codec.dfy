/**
  The USB-GEIGER V2 report formats: the 7-byte command report written before
  every sensor read, the 7-byte sensor report (a 4-byte pulse counter and a
  3-byte elapsed-time counter, both little-endian) and the 7-byte
  firmware-version feature report (year, month, day and four reserved bytes).
 */
module ReportCodec {
  import opened LittleEndian
  import opened BitArith

  /** Every report exchanged with the device is this many bytes. */
  const BufferSize: nat := 7

  /** Byte 0 of a command report: the HID report id. */
  const ReportId: byte := 0x00

  /** Byte 1 of a command report when a counter reset is requested. */
  const ClearMarker: byte := 0xAA

  /** A raw report buffer of the fixed size. */
  type Report = s: seq<byte> | |s| == BufferSize witness [0, 0, 0, 0, 0, 0, 0]

  /** The command report: report id, the clear marker or 0, then zero padding. */
  function EncodeCommand(clear: bool): (r: Report)
    ensures r[0] == ReportId
    ensures clear ==> r[1] == ClearMarker
    ensures !clear ==> r[1] == 0
    ensures forall i :: 2 <= i < BufferSize ==> r[i] == 0
  {
    var zeroed: Report := seq(BufferSize, _ => 0);
    var withId := zeroed[0 := ReportId];
    if clear then withId[1 := ClearMarker] else withId
  }

  /** The two command reports the program can send, as wire bytes. */
  lemma CommandWireFormat()
    ensures EncodeCommand(false) == [0x00, 0x00, 0x00, 0x00, 0x00, 0x00, 0x00]
    ensures EncodeCommand(true) == [0x00, 0xAA, 0x00, 0x00, 0x00, 0x00, 0x00]
  {
  }

  /** The clear flag can be read back from the report that carries it. */
  lemma CommandDeterminesClear(a: bool, b: bool)
    ensures EncodeCommand(a) == EncodeCommand(b) <==> a == b
  {
    if EncodeCommand(a) == EncodeCommand(b) {
      assert EncodeCommand(a)[1] == EncodeCommand(b)[1];
    }
  }

  /** The sensor-report layout: a 4-byte pulse counter, then a 3-byte time counter. */
  datatype ValueFields = ValueFields(devCount: seq<byte>, time: seq<byte>)

  type SensorValue = v: ValueFields | |v.devCount| == 4 && |v.time| == 3
    witness ValueFields([0, 0, 0, 0], [0, 0, 0])

  /** The firmware-version layout: year, month, day, then four reserved bytes. */
  datatype VersionFields = VersionFields(year: byte, month: byte, date: byte, reserved: seq<byte>)

  type FirmwareVersion = v: VersionFields | |v.reserved| == 4
    witness VersionFields(0, 0, 0, [0, 0, 0, 0])

  /** The sensor-report layout laid over a received buffer. */
  function ValueOf(buf: Report): (v: SensorValue)
    ensures v.devCount + v.time == buf
  {
    ValueFields(buf[..4], buf[4..])
  }

  /** The firmware-version layout laid over a received buffer. */
  function VersionOf(buf: Report): (v: FirmwareVersion)
    ensures [v.year, v.month, v.date] + v.reserved == buf
  {
    VersionFields(buf[0], buf[1], buf[2], buf[3..])
  }

  /** Only the first three bytes of a version report reach the decoded date. */
  lemma VersionIgnoresReserved(a: Report, b: Report)
    requires a[..3] == b[..3]
    ensures VersionOf(a).year == VersionOf(b).year
    ensures VersionOf(a).month == VersionOf(b).month
    ensures VersionOf(a).date == VersionOf(b).date
  {
    assert a[0] == a[..3][0] && a[1] == a[..3][1] && a[2] == a[..3][2];
    assert b[0] == b[..3][0] && b[1] == b[..3][1] && b[2] == b[..3][2];
  }

  /**
    The pulse counter from the shifts and ORs of bytes 3, 2, 1, 0, taken on
    unbounded naturals: the unsigned value the design intends. The program's
    signed 32-bit result is `CalcDevCountAsWritten`.
   */
  function CalcDevCount(v: SensorValue): nat
  {
    BitOr(BitOr(BitOr(ShiftLeft(v.devCount[3], 24), ShiftLeft(v.devCount[2], 16)),
                ShiftLeft(v.devCount[1], 8)),
          v.devCount[0])
  }

  /** The elapsed time from the shifts and ORs of the time bytes 2, 1, 0; below 2^24, so it fits a C `int`. */
  function CalcTime(v: SensorValue): nat
  {
    BitOr(BitOr(ShiftLeft(v.time[2], 16), ShiftLeft(v.time[1], 8)), v.time[0])
  }

  /** b3 << 24 | b2 << 16 adds the two top lanes. */
  lemma ShiftOrTop(b2: byte, b3: byte)
    ensures BitOr(ShiftLeft(b3, 24), ShiftLeft(b2, 16)) == (b3 as nat * 256 + b2) * 65536
  {
    assert Pow2(8) == 256 && Pow2(16) == 65536 && Pow2(24) == 16777216;
    var hi: nat := b3 as nat * 256;
    assert ShiftLeft(b3, 24) == hi * Pow2(16);
    OrOfShifted(hi, b2, 16);
    OrIntoLowBits(b3, b2, 8);
  }

  /** b3 << 24 | b2 << 16 | b1 << 8 | b0 adds the four lanes. */
  lemma ShiftOr4(b0: byte, b1: byte, b2: byte, b3: byte)
    ensures BitOr(BitOr(BitOr(ShiftLeft(b3, 24), ShiftLeft(b2, 16)), ShiftLeft(b1, 8)), b0)
         == b0 as nat + 256 * (b1 as nat) + 65536 * (b2 as nat) + 16777216 * (b3 as nat)
  {
    assert Pow2(8) == 256;
    ShiftOrTop(b2, b3);
    var top: nat := b3 as nat * 256 + b2;
    assert top * 65536 == (top * 256) * Pow2(8);
    OrOfShifted(top * 256, b1, 8);
    OrIntoLowBits(top, b1, 8);
    var mid: nat := top * 256 + b1;
    OrIntoLowBits(mid, b0, 8);
  }

  /** b2 << 16 | b1 << 8 | b0 adds the three lanes. */
  lemma ShiftOr3(b0: byte, b1: byte, b2: byte)
    ensures BitOr(BitOr(ShiftLeft(b2, 16), ShiftLeft(b1, 8)), b0)
         == b0 as nat + 256 * (b1 as nat) + 65536 * (b2 as nat)
  {
    assert Pow2(8) == 256 && Pow2(16) == 65536;
    assert ShiftLeft(b2, 16) == (b2 as nat * 256) * Pow2(8);
    OrOfShifted(b2 as nat * 256, b1, 8);
    OrIntoLowBits(b2, b1, 8);
    var mid: nat := b2 as nat * 256 + b1;
    OrIntoLowBits(mid, b0, 8);
  }

  /** The assembled pulse counter is the little-endian value of bytes 0-3, so below 2^32. */
  lemma CalcDevCountIsLittleEndian(v: SensorValue)
    ensures CalcDevCount(v) == LeValue(v.devCount)
    ensures CalcDevCount(v) < 0x1_0000_0000
  {
    ShiftOr4(v.devCount[0], v.devCount[1], v.devCount[2], v.devCount[3]);
    LeValue4(v.devCount);
    LeValueBound(v.devCount);
    assert Pow256(4) == 0x1_0000_0000;
  }

  /** The assembled elapsed time is the little-endian value of bytes 4-6, so below 2^24. */
  lemma CalcTimeIsLittleEndian(v: SensorValue)
    ensures CalcTime(v) == LeValue(v.time)
    ensures CalcTime(v) < 0x100_0000
  {
    ShiftOr3(v.time[0], v.time[1], v.time[2]);
    LeValue3(v.time);
    LeValueBound(v.time);
    assert Pow256(3) == 0x100_0000;
  }

  /** A decoded sensor report. */
  datatype Reading = Reading(pulseCount: nat, elapsedSeconds: nat)

  /** Decoding a sensor report as the program does: overlay the layout, assemble both counters. */
  function DecodeSensor(buf: Report): (r: Reading)
    ensures r.pulseCount == LeValue(buf[..4]) && r.pulseCount < 0x1_0000_0000
    ensures r.elapsedSeconds == LeValue(buf[4..]) && r.elapsedSeconds < 0x100_0000
  {
    var v := ValueOf(buf);
    CalcDevCountIsLittleEndian(v);
    CalcTimeIsLittleEndian(v);
    Reading(CalcDevCount(v), CalcTime(v))
  }

  /** A reading the wire format can carry. */
  predicate Representable(r: Reading)
  {
    r.pulseCount < 0x1_0000_0000 && r.elapsedSeconds < 0x100_0000
  }

  /** The sensor report a device sends for a reading: both counters little-endian. */
  function EncodeSensor(r: Reading): (buf: Report)
  {
    LeBytes(r.pulseCount, 4) + LeBytes(r.elapsedSeconds, 3)
  }

  /** Every representable reading survives encoding and decoding. */
  lemma DecodeEncodeSensor(r: Reading)
    requires Representable(r)
    ensures DecodeSensor(EncodeSensor(r)) == r
  {
    var buf := EncodeSensor(r);
    assert Pow256(4) == 0x1_0000_0000 && Pow256(3) == 0x100_0000;
    assert buf[..4] == LeBytes(r.pulseCount, 4);
    assert buf[4..] == LeBytes(r.elapsedSeconds, 3);
    LeValueOfLeBytes(r.pulseCount, 4);
    LeValueOfLeBytes(r.elapsedSeconds, 3);
  }

  /** Every sensor report is the encoding of the reading decoded from it. */
  lemma EncodeDecodeSensor(buf: Report)
    ensures Representable(DecodeSensor(buf))
    ensures EncodeSensor(DecodeSensor(buf)) == buf
  {
    LeBytesOfLeValue(buf[..4]);
    LeBytesOfLeValue(buf[4..]);
    assert buf[..4] + buf[4..] == buf;
  }

  /** The elapsed time does not depend on the pulse-counter bytes 0-3. */
  lemma ElapsedIgnoresCountBytes(a: Report, b: Report)
    requires a[4..] == b[4..]
    ensures DecodeSensor(a).elapsedSeconds == DecodeSensor(b).elapsedSeconds
  {
  }

  /** Worked readings: a small one and the largest the format holds. */
  lemma SensorExamples()
    ensures DecodeSensor([0x01, 0x00, 0x00, 0x00, 0x0A, 0x00, 0x00]) == Reading(1, 10)
    ensures DecodeSensor([0xFF, 0xFF, 0xFF, 0xFF, 0xFF, 0xFF, 0xFF]) == Reading(4294967295, 16777215)
  {
    var small: Report := [0x01, 0x00, 0x00, 0x00, 0x0A, 0x00, 0x00];
    var full: Report := [0xFF, 0xFF, 0xFF, 0xFF, 0xFF, 0xFF, 0xFF];
    LeValue4(small[..4]);
    LeValue3(small[4..]);
    LeValue4(full[..4]);
    LeValue3(full[4..]);
  }

  /** C `int` is 32 bits wide: an unsigned value reinterpreted as two's complement. */
  function AsInt32(u: nat): (i: int)
    requires u < 0x1_0000_0000
    ensures -0x8000_0000 <= i < 0x8000_0000
    ensures i == u || i == u - 0x1_0000_0000
  {
    if u < 0x8000_0000 then u else u - 0x1_0000_0000
  }

  /** The pulse counter as the device code returns it: assembled into a signed 32-bit `int`. */
  function CalcDevCountAsWritten(v: SensorValue): int
  {
    CalcDevCountIsLittleEndian(v);
    AsInt32(CalcDevCount(v))
  }

  /** With byte 3 at 0x80 or above the signed result is negative, unlike the counter it encodes. */
  lemma DevCountAsWrittenGoesNegative()
    ensures CalcDevCountAsWritten(ValueOf([0xFF, 0xFF, 0xFF, 0xFF, 0x00, 0x00, 0x00])) == -1
    ensures DecodeSensor([0xFF, 0xFF, 0xFF, 0xFF, 0x00, 0x00, 0x00]).pulseCount == 4294967295
  {
    var buf: Report := [0xFF, 0xFF, 0xFF, 0xFF, 0x00, 0x00, 0x00];
    CalcDevCountIsLittleEndian(ValueOf(buf));
    LeValue4(buf[..4]);
  }

  /** The signed result agrees with the counter exactly when byte 3 is below 0x80. */
  lemma DevCountAsWrittenAgreesBelowSignBit(v: SensorValue)
    ensures CalcDevCountAsWritten(v) == CalcDevCount(v) <==> v.devCount[3] < 0x80
  {
    CalcDevCountIsLittleEndian(v);
    LeValue4(v.devCount);
  }
}
