/** `src/headsetcontrol_tray/hid_communicator.py`: `HIDCommunicator` wraps one open
    handle, frames output reports with the report id, and checks the result of each write
    and read. */
module HidCommunicator {
  import opened Prelude
  import opened HidApi
  import Utf8

  /** `bytes([report_id]) + payload if report_id > 0 else payload`. */
  function Frame(reportId: int, data: seq<byte>): (frame: seq<byte>)
    requires reportId < 256
    ensures reportId > 0 ==> |frame| == |data| + 1 && frame[0] == reportId && frame[1..] == data
    ensures reportId <= 0 ==> frame == data
  {
    if reportId > 0 then [reportId] + data else data
  }

  /** `device_path_str`: the path decoded as UTF-8 with replacement, or "Unknown Path"
      when there is none. */
  function PathDescription(info: DeviceInfo): (s: string)
    ensures info.path.Some? ==> s == Utf8.Decode(info.path.value)
    ensures info.path.None? ==> s == "Unknown Path"
  {
    match info.path
    case Some(p) => Utf8.Decode(p)
    case None => "Unknown Path"
  }

  /** `device_product_str`: the product string, or "Unknown Product" when there is none. */
  function ProductDescription(info: DeviceInfo): (s: string)
    ensures s == info.productString.GetOr("Unknown Product")
  {
    match info.productString
    case Some(p) => p
    case None => "Unknown Product"
  }

  /** The checks of `read_report(n)` on what the device returned: an exception, an empty
      read or a short read give None; otherwise the bytes as they came. */
  function CheckedRead(outcome: ReadOutcome, n: nat): (r: Option<seq<byte>>)
    ensures r.Some? <==> outcome.Received? && outcome.data != [] && |outcome.data| >= n
    ensures r.Some? ==> r.value == outcome.data
  {
    match outcome
    case ReadRaised => None
    case Received(data) =>
      if data == [] then None
      else if |data| < n then None
      else Some(data)
  }

  /** `write_report`'s verdict on the device's answer: a positive count. */
  function WriteSucceeded(outcome: WriteOutcome): (ok: bool)
    ensures ok <==> outcome.Wrote? && outcome.count > 0
  {
    match outcome
    case WriteRaised => false
    case Wrote(count) => count > 0
  }

  class Communicator {
    const hidDevice: Device
    const devicePathStr: string
    const deviceProductStr: string

    constructor (hidDevice: Device, info: DeviceInfo)
      ensures this.hidDevice == hidDevice
      ensures devicePathStr == PathDescription(info) && deviceProductStr == ProductDescription(info)
    {
      this.hidDevice := hidDevice;
      devicePathStr := PathDescription(info);
      deviceProductStr := ProductDescription(info);
    }

    /** `write_report`: sends the frame; true iff the device took a positive number of
        bytes without raising. */
    method WriteReport(reportId: int, data: seq<byte>) returns (ok: bool)
      requires reportId < 256
      modifies hidDevice`sent
      ensures hidDevice.sent == old(hidDevice.sent) + [Frame(reportId, data)]
      ensures ok <==> hidDevice.behaviour.write.Wrote? && hidDevice.behaviour.write.count > 0
    {
      var outcome := hidDevice.Write(Frame(reportId, data));
      ok := WriteSucceeded(outcome);
    }

    /** `read_report(n)`: exactly n bytes when the device delivered at least n, else None. */
    method ReadReport(reportLength: nat) returns (r: Option<seq<byte>>)
      ensures r.Some? <==>
        hidDevice.behaviour.read.Received? && reportLength > 0 && |hidDevice.behaviour.read.data| >= reportLength
      ensures r.Some? ==> r.value == hidDevice.behaviour.read.data[..reportLength]
    {
      var outcome := hidDevice.Read(reportLength);
      r := CheckedRead(outcome, reportLength);
    }
  }

  /** `HIDCommunicator(hid_device, device_info)`: a None device is refused (ValueError),
      modelled as a null result. */
  method NewCommunicator(hidDevice: Device?, info: DeviceInfo) returns (c: Communicator?)
    ensures hidDevice == null ==> c == null
    ensures hidDevice != null ==> (c != null && fresh(c) && c.hidDevice == hidDevice &&
      c.devicePathStr == PathDescription(info) && c.deviceProductStr == ProductDescription(info))
  {
    if hidDevice == null {
      return null;
    }
    c := new Communicator(hidDevice, info);
  }
}
