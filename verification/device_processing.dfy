/**
  Processing one selected device: open it, read the firmware version when
  asked for, then read the sensor. A failing step is recorded and the next
  step still runs; a device that cannot be opened fails outright.
 */
module DeviceProcessing {
  import opened ReportCodec
  import opened DeviceSession

  datatype Option<T> = None | Some(value: T)

  /** Settings fixed once at start-up: list mode, version reporting, the device selector, the clear flag. */
  datatype Config = Config(showDevList: bool, showVersion: bool, devNumber: int, clear: bool)

  /**
    What the transport does for one enumerated device: whether opening its
    path gave a handle, what the feature-report call returned and filled in,
    what the command write returned, and what the timed read returned and filled in.
   */
  datatype DeviceIo = DeviceIo(
    openOk: bool,
    featureResult: int,
    featureReply: Report,
    writeResult: int,
    readSize: int,
    readReply: Report)

  /** What processing one device produced: its 1-based position, what was decoded, what failed. */
  datatype DeviceReport = DeviceReport(
    position: nat,
    version: Option<FirmwareVersion>,
    reading: Option<Reading>,
    errors: seq<Error>)

  /** Reference condition for a device failing: open, version (when asked for) or sensor exchange. */
  predicate DeviceFails(cfg: Config, io: DeviceIo)
  {
    || !io.openOk
    || (cfg.showVersion && io.featureResult < 0)
    || io.writeResult < 0
    || io.readSize != BufferSize
  }

  /** The version step: skipped unless asked for; its failure is recorded and processing goes on. */
  function VersionStep(cfg: Config, io: DeviceIo): (Option<FirmwareVersion>, seq<Error>)
  {
    if !cfg.showVersion then (None, [])
    else match GetVersion(io.featureResult, io.featureReply).result
      case Ok(v) => (Some(v), [])
      case Err(e) => (None, [e])
  }

  /** The sensor step: exchange, then assemble both counters from the received layout. */
  function SensorStep(cfg: Config, io: DeviceIo): (Option<Reading>, seq<Error>)
  {
    match ReadSensor(cfg.clear, io.writeResult, io.readSize, io.readReply).result
    case Ok(v) => (Some(Reading(CalcDevCount(v), CalcTime(v))), [])
    case Err(e) => (None, [e])
  }

  /** Processes one opened device: the version (if asked for), then always the sensor. */
  function ProcessDevice(cfg: Config, position: nat, io: DeviceIo): (rep: DeviceReport)
    ensures rep.position == position
    ensures |rep.errors| > 0 <==> DeviceFails(cfg, io)
    ensures !io.openOk ==> rep == DeviceReport(position, None, None, [OpenError])
    ensures rep.version.Some? <==> io.openOk && cfg.showVersion && io.featureResult >= 0
    ensures rep.version.Some? ==> rep.version.value == VersionOf(io.featureReply)
    ensures rep.reading.Some? <==> io.openOk && io.writeResult >= 0 && io.readSize == BufferSize
    ensures rep.reading.Some? ==> rep.reading.value == DecodeSensor(io.readReply)
  {
    if !io.openOk then DeviceReport(position, None, None, [OpenError])
    else
      var version := VersionStep(cfg, io);
      var reading := SensorStep(cfg, io);
      DeviceReport(position, version.0, reading.0, version.1 + reading.1)
  }
}
