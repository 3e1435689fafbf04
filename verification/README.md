# USB-GEIGER device protocol, modelled in Dafny

This project models the device-protocol logic of `usbgeiger`. The program polls a
USB-GEIGER V2 radiation counter (a HID device with vendor id 0x1774 and product
id 0x1002) and reports its cumulative pulse count, the elapsed measurement time
and its firmware version. It can also reset the device's counter.

The model covers four parts of `usbgeiger.c`:

- **Report codec** (`report_codec.dfy`, module `ReportCodec`). This is the 7-byte
  command report written before each sensor read: report id 0, then the clear
  marker 0xAA or 0, then zero padding. It also covers the 7-byte sensor report,
  overlaid as a 4-byte pulse counter followed by a 3-byte time counter. The
  counters are assembled with the same shifts and bitwise ORs of the bytes as
  the C code, on unbounded naturals. Finally it covers the firmware-version report: year, month
  and day, then four reserved bytes.
- **Device session** (`device_session.dfy`, module `DeviceSession`). This is
  `usbgeiger_read_sensor` and `usbgeiger_get_version`. The HID transport is not
  modelled. Instead, the value each transport call returns is an input:
  - the `hid_write` result;
  - the `hid_read_timeout` result and the buffer it filled;
  - the `hid_get_feature_report` result and its buffer.

  Each exchange records the transport calls it makes, in order. This makes it
  possible to state "no read after a failed write" and "no command report for
  a version query".
- **Per-device processing** (`device_processing.dfy`, module `DeviceProcessing`).
  One selected device goes through these steps: open; version, when `-V` is
  given; sensor. A failed version query is recorded and the sensor read still
  runs. A failed open ends that device's processing (see "## Left out" for how
  this differs from the C code).
- **Selection and failure accumulation in `main`** (`device_selection.dfy`,
  `main_loop.dfy`, modules `DeviceSelection` and `MainLoop`). Devices are
  numbered from 1 in enumeration order. The selector 0 means all devices. A
  failure on one device sets the failure flag, and the loop goes on to the next
  device. If no device was processed, the run ends in "device not found". The
  loop is a left fold over a sequence of per-device transport outcomes. The
  fold is stated once for any per-device step. `RunDevices` is the imperative
  loop, written the way the C loop is written, and is proved equal to the fold.
  It returns the program's exit status as written, which is `hid_exit`'s
  result alone. It also returns the corrected status from "## Findings".

Two supporting modules sit underneath:
- `LittleEndian` (`little_endian.dfy`) is the reference definition of
  little-endian byte strings, with round trips in both directions.
- `BitArith` (`bit_arith.dfy`) defines bitwise OR and left shift on naturals. It
  proves that OR of values in disjoint bit lanes is addition.

Bytes are naturals below 256. Integers are unbounded. The pulse counter is one
place where C's 32-bit signed `int` matters. The wrap-around is written out
only in `ReportCodec.CalcDevCountAsWritten` (through `AsInt32`). The processing
path uses the unsigned value (see "## Findings").

## Model

| member | source | states |
|---|---|---|
| `ReportCodec.EncodeCommand` | usbgeiger.c:51-59 | The command report is 7 bytes. Byte 0 is the report id 0. Byte 1 is 0xAA when a clear is requested and 0 otherwise. Bytes 2-6 are 0. |
| `ReportCodec.CommandWireFormat` | usbgeiger.c:51-59 | The two possible command reports are exactly `[0,0,0,0,0,0,0]` and `[0,0xAA,0,0,0,0,0]`. |
| `ReportCodec.CommandDeterminesClear` | usbgeiger.c:56-59 | Two command reports are equal iff their clear flags are equal. |
| `ReportCodec.ValueOf` | usbgeiger.c:23-26 | The sensor layout splits a 7-byte buffer into the 4 counter bytes followed by the 3 time bytes. Joined back together, they give the buffer. |
| `ReportCodec.VersionOf` | usbgeiger.c:28-33 | The version layout reads year, month and day from bytes 0-2 and keeps bytes 3-6 as reserved. Joined back together, they give the buffer. |
| `ReportCodec.VersionIgnoresReserved` | usbgeiger.c:28-33 | Year, month and day depend only on bytes 0-2. |
| `BitArith.BitOr` | usbgeiger.c:104 | Bitwise OR is at least each operand and at most their sum. |
| `ReportCodec.ShiftOrTop` | usbgeiger.c:104 | `b3 << 24 \| b2 << 16` equals `(b3*256 + b2) * 65536`. |
| `ReportCodec.ShiftOr4` | usbgeiger.c:104 | `b3 << 24 \| b2 << 16 \| b1 << 8 \| b0` equals b0 + b1·2^8 + b2·2^16 + b3·2^24. |
| `ReportCodec.ShiftOr3` | usbgeiger.c:113 | `b2 << 16 \| b1 << 8 \| b0` equals b0 + b1·2^8 + b2·2^16. |
| `ReportCodec.CalcDevCountIsLittleEndian` | usbgeiger.c:100-107 | The assembled pulse count equals the little-endian value of counter bytes 0-3 (byte 0 least significant), so it is below 2^32. |
| `ReportCodec.CalcTimeIsLittleEndian` | usbgeiger.c:109-116 | The assembled elapsed time equals the little-endian value of time bytes 4-6 (byte 4 least significant), so it is below 2^24. |
| `ReportCodec.DecodeSensor` | usbgeiger.c:23-26 | Decoding a sensor report gives the pulse count as the little-endian value of bytes 0-3, below 2^32. It gives the elapsed time as the little-endian value of bytes 4-6, below 2^24. |
| `ReportCodec.DecodeEncodeSensor` | usbgeiger.c:100-116 | Every reading with a count below 2^32 and a time below 2^24 decodes back from its 4+3-byte little-endian encoding. |
| `ReportCodec.EncodeDecodeSensor` | usbgeiger.c:100-116 | Every 7-byte sensor report is the encoding of the reading decoded from it, so decoding loses nothing. |
| `ReportCodec.ElapsedIgnoresCountBytes` | usbgeiger.c:109-116 | The elapsed time does not depend on bytes 0-3. |
| `ReportCodec.SensorExamples` | usbgeiger.c:100-116 | `[1,0,0,0,10,0,0]` decodes to count 1 and time 10. All-0xFF decodes to 4294967295 and 16777215. |
| `ReportCodec.DevCountAsWrittenGoesNegative` | usbgeiger.c:100-107 | As written (a signed 32-bit `int`), counter bytes FF FF FF FF yield -1, while the counter they encode is 4294967295. |
| `ReportCodec.DevCountAsWrittenAgreesBelowSignBit` | usbgeiger.c:100-107 | The signed result equals the counter iff byte 3 is below 0x80. |
| `DeviceSession.ReadSensor` | usbgeiger.c:47-82 | The command report is written first. A negative write result fails with no read call made. Otherwise one timed read of 7 bytes follows. A negative read result is a read error, and any other length than 7 is a framing error. Success holds iff the write result ≥ 0 and the read length is 7, and then the value is the received buffer. |
| `DeviceSession.FailedWriteSkipsRead` | usbgeiger.c:61-69 | After a failed write, nothing the read would return changes the exchange. |
| `DeviceSession.GetVersion` | usbgeiger.c:84-98 | One feature-report call, and no command report. It fails iff the result is negative. On success, year, month and day are bytes 0, 1 and 2 unmodified. |
| `DeviceSession.GetVersionIgnoresLengthAndReserved` | usbgeiger.c:88-97 | Any non-negative length is accepted. Bytes 3-6 do not reach the decoded date. |
| `DeviceSession.VersionExample` | usbgeiger.c:28-33 | `[21,3,15,0,0,0,0]` decodes to year 21, month 3, day 15. |
| `DeviceProcessing.ProcessDevice` | usbgeiger.c:214-237 | A device fails iff any of these holds: the open fails; the version is requested and the feature report is negative; the write is negative; the read length is not 7. A version failure does not prevent the sensor read. The reading and the version are present exactly when their exchanges succeed, and they are decoded from the received buffers. |
| `DeviceSelection.SelectedPositions` | usbgeiger.c:199-206 | Every listed position lies in 1..N and is selected, that is, `s == 0 \|\| k == s`. |
| `DeviceSelection.SelectedPositionsComplete` | usbgeiger.c:199-206 | Every position in 1..N that the selector picks is listed. |
| `DeviceSelection.SelectedPositionsIncreasing` | usbgeiger.c:199-200 | Selected positions are listed in enumeration order. |
| `DeviceSelection.SelectedCount` | usbgeiger.c:206 | Selector 0 picks all N devices, 1 ≤ s ≤ N picks exactly one, and s > N or s < 0 picks none. |
| `DeviceSelection.NoneSelectedIff` | usbgeiger.c:206 | The selection is empty iff no position in 1..N is selected. |
| `MainLoop.ScanAccounts` | usbgeiger.c:194-254 | After the loop, `dev_count` is N. Outside list mode, the reports are exactly those of the selected positions, in order, each computed from that device's own transport results. `proc_count` is their number, and the flag is set iff one of them failed. In list mode nothing is processed and positions 1..N are listed. |
| `MainLoop.AnyFailedIff` | usbgeiger.c:216-235 | The reports record a failure iff the step fails on some selected device. |
| `MainLoop.RunProcessCount` | usbgeiger.c:195-215 | The final `dev_count` is N. Outside list mode, `proc_count` is N for selector 0, 1 for 1 ≤ s ≤ N, and 0 otherwise. In list mode it is 0. |
| `MainLoop.ListModeOnlyLists` | usbgeiger.c:239-265 | In list mode no device is processed, the flag stays clear (no "not found" error), and positions 1..N are listed. |
| `MainLoop.RunFailedIff` | usbgeiger.c:194-262 | The accumulated flag is set iff list mode is off and either no position is selected or some selected device fails (open, version or sensor). |
| `MainLoop.SelectedDeviceProcessed` | usbgeiger.c:199-237 | Every selected device is processed on its own transport results, whatever happened to the devices before it. |
| `MainLoop.RunReportsAreSelectedReports` | usbgeiger.c:199-237 | Outside list mode, the reports equal the reference sequence: for each selected position in increasing order, the result of processing that device on its own transport results. |
| `MainLoop.ProcessedPositionsIgnoreOutcomes` | usbgeiger.c:199-254 | Which positions are processed depends only on the number of devices, not on any device's success or failure. |
| `MainLoop.RunSummary` | usbgeiger.c:194-262 | The loop ends with `dev_count` = N and the selector-determined `proc_count`. The flag is set iff `RunFails`. Outside list mode, the reports are exactly the selected devices' reports in enumeration order. |
| `MainLoop.VisitDevice` | usbgeiger.c:199-253 | The C loop body for one device performs exactly one step of the fold. |
| `MainLoop.RunDevices` | usbgeiger.c:194-273 | The imperative loop computes `dev_count` = N and the selector-determined `proc_count`. Its flag is set iff `RunFails`. Outside list mode its reports equal `SelectedReports`, one per selected position in order, each computed from that device's own results. The as-written exit status is `hid_exit`'s result, whatever the flag. The corrected status (from "## Findings") is non-zero iff the flag is set or `hid_exit` failed. |
| `MainLoop.NotFoundExitsZeroAsWritten` | usbgeiger.c:256-273 | As written, a run with no devices ends in "device not found", yet exits with status 0 when `hid_exit` returns 0. |
| `MainLoop.ExitStatus` | usbgeiger.c:268-273 | The corrected exit status is 0 or 1, and non-zero iff a device failed, no device was found, or `hid_exit` failed. |

## Left out

- HIDAPI transport calls (`hid_init`, `hid_enumerate`, `hid_open_path`, `hid_write`, `hid_read_timeout`, `hid_get_feature_report`, `hid_close`, `hid_free_enumeration`, `hid_exit`) are foreign I/O. Their results are inputs: an open flag, integers and 7-byte buffers.
- The early exit when `hid_init` fails (usbgeiger.c:188-192) is transport set-up. It is not part of the loop that is modelled.
- The 5000 ms read timeout (usbgeiger.c:71) is a transport concern. The recorded read call carries only its buffer size.
- `hid_close` on every processed device (usbgeiger.c:237) is resource release. It does not change any reported value.
- Option parsing (`getopt`/`atoi`, usbgeiger.c:160-186), `usage`, `hex_dump`, the `debug` traces, the timestamp from `time`/`localtime` (usbgeiger.c:207-212) and all printing are output formatting. The printed values appear as the fields of `DeviceReport` and the `listed` positions.
- DeviceProcessing.ProcessDevice: after a failed `hid_open_path`, the C code goes on calling the version and sensor functions on a NULL handle (usbgeiger.c:216-230). The model records only the open failure for that device and makes no further calls.
- Error text from `hid_error` is not modelled. Errors are the constructors of `DeviceSession.Error`.
- The enumeration's descriptor metadata is not modelled. The path is used only to open the device (usbgeiger.c:214), and the model takes the result of that open as the `openOk` input. The serial number and the strings are for display only.
- DeviceProcessing.ProcessDevice: the reported pulse count is the unsigned value from `CalcDevCount`. The program prints the signed 32-bit `int` from usbgeiger.c:104 with `%d`, so counts of 2^31 or more print as negative. That divergence is modelled only by `ReportCodec.CalcDevCountAsWritten` (see "## Findings").

Three behaviours of the code that a protocol-level description would state differently; the model follows the code:
- Sensor-report framing is checked in `usbgeiger_read_sensor` (length must equal 7), not in a decoder of its own.
- `usbgeiger_get_version` checks only for a negative result, never the length.
- A failed version query marks the device failed, but the sensor read still runs.

## Findings

| source | as written | input that shows it | evidently intended | confidence | as-written member | corrected member |
|---|---|---|---|---|---|---|
| usbgeiger.c:100-107 | The pulse count is assembled into a signed 32-bit `int` and returned as `int`. A top byte ≥ 0x80 overflows (undefined in C; on two's-complement targets, negative). | counter bytes `FF FF FF FF` give -1 instead of 4294967295 | an unsigned 32-bit count, 0 to 4294967295 | medium, not executed (the overflow is undefined behaviour; two's-complement wrap assumed) | `ReportCodec.CalcDevCountAsWritten` (shown by `ReportCodec.DevCountAsWrittenGoesNegative`) | `ReportCodec.CalcDevCount` (proved by `ReportCodec.CalcDevCountIsLittleEndian`, used by `DecodeSensor`) |
| usbgeiger.c:268 | `result = hid_exit();` overwrites the accumulated failure flag, so the exit status ignores every device failure and "device not found". | no device enumerated, `hid_exit` returns 0: "device not found" is reported but the exit status is 0 | exit status non-zero when the flag is set or `hid_exit` fails | high, not executed | `MainLoop.ExitStatusAsWritten` (shown by `MainLoop.NotFoundExitsZeroAsWritten`; returned by `MainLoop.RunDevices` as `exitAsWritten`) | `MainLoop.ExitStatus` (used by `MainLoop.RunDevices`) |
