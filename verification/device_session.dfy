/**
  One protocol exchange against an open device. The HID transport is not
  modelled: the value each transport call returns is an input, and the calls
  the exchange makes are recorded in order, so that what is sent, and whether
  a later call is made at all, can be stated.
 */
module DeviceSession {
  import opened LittleEndian
  import opened ReportCodec

  /** Why one device's processing failed. */
  datatype Error =
    | OpenError           // the device path could not be opened
    | WriteError          // the command report write returned a negative value
    | ReadError           // the timed read returned a negative value
    | FramingError        // the timed read returned a length other than BufferSize
    | FeatureReportError  // the feature-report request returned a negative value

  datatype Result<T> = Ok(value: T) | Err(error: Error)

  /** A call made on the transport, with the bytes or the buffer size passed to it. */
  datatype HidCall =
    | Write(data: seq<byte>)
    | ReadTimeout(maxLength: nat)
    | GetFeatureReport(maxLength: nat)

  /** The calls an exchange made, in order, and its outcome. */
  datatype Exchange<T> = Exchange(calls: seq<HidCall>, result: Result<T>)

  /**
    Reads the sensor report: writes the command report, then, only if the
    write succeeded, reads a reply. `writeResult` and `readSize` are what the
    two transport calls return; `reply` is the buffer the read filled.
   */
  function ReadSensor(clear: bool, writeResult: int, readSize: int, reply: Report): (x: Exchange<SensorValue>)
    ensures |x.calls| >= 1 && x.calls[0] == Write(EncodeCommand(clear))
    ensures writeResult < 0 ==> x.calls == [Write(EncodeCommand(clear))] && x.result == Err(WriteError)
    ensures writeResult >= 0 ==> x.calls == [Write(EncodeCommand(clear)), ReadTimeout(BufferSize)]
    ensures x.result.Ok? <==> writeResult >= 0 && readSize >= 0 && readSize == BufferSize
    ensures x.result.Ok? ==> x.result.value.devCount + x.result.value.time == reply
    ensures writeResult >= 0 && readSize < 0 ==> x.result == Err(ReadError)
    ensures writeResult >= 0 && readSize >= 0 && readSize != BufferSize ==> x.result == Err(FramingError)
  {
    var command := EncodeCommand(clear);
    if writeResult < 0 then
      Exchange([Write(command)], Err(WriteError))
    else
      var calls := [Write(command), ReadTimeout(BufferSize)];
      if readSize < 0 then Exchange(calls, Err(ReadError))
      else if readSize == BufferSize then Exchange(calls, Ok(ValueOf(reply)))
      else Exchange(calls, Err(FramingError))
  }

  /** After a failed write nothing the read would return can change the exchange. */
  lemma FailedWriteSkipsRead(clear: bool, writeResult: int, readSize1: int, reply1: Report, readSize2: int, reply2: Report)
    requires writeResult < 0
    ensures ReadSensor(clear, writeResult, readSize1, reply1) == ReadSensor(clear, writeResult, readSize2, reply2)
  {
  }

  /**
    Reads the firmware version through a feature report. `featureResult` is
    what the feature-report call returns and `reply` the buffer it filled. Only
    a negative result fails; the length is not checked.
   */
  function GetVersion(featureResult: int, reply: Report): (x: Exchange<FirmwareVersion>)
    ensures x.calls == [GetFeatureReport(BufferSize)]
    ensures x.result.Ok? <==> featureResult >= 0
    ensures x.result.Err? ==> x.result.error == FeatureReportError
    ensures x.result.Ok? ==>
              x.result.value.year == reply[0] && x.result.value.month == reply[1] && x.result.value.date == reply[2]
  {
    var calls := [GetFeatureReport(BufferSize)];
    if featureResult < 0 then Exchange(calls, Err(FeatureReportError))
    else Exchange(calls, Ok(VersionOf(reply)))
  }

  /** Any non-negative length is accepted, and bytes 3-6 do not reach the date. */
  lemma GetVersionIgnoresLengthAndReserved(featureResult1: int, reply1: Report, featureResult2: int, reply2: Report)
    requires featureResult1 >= 0 && featureResult2 >= 0
    requires reply1[..3] == reply2[..3]
    ensures var v1 := GetVersion(featureResult1, reply1).result.value;
            var v2 := GetVersion(featureResult2, reply2).result.value;
            v1.year == v2.year && v1.month == v2.month && v1.date == v2.date
  {
    VersionIgnoresReserved(reply1, reply2);
  }

  /** A worked version report. */
  lemma VersionExample()
    ensures var v := GetVersion(7, [21, 3, 15, 0, 0, 0, 0]).result.value;
            v.year == 21 && v.month == 3 && v.date == 15
  {
  }
}
