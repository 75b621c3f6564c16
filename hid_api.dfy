/** The `hid` (hidapi) library as the driver sees it, as oracles: the enumeration the bus
    reports, which paths open, and how an open device answers writes, reads and close.
    Fields describing the environment are constant fields, fixed when the object is
    built; the driver never changes them. */
module HidApi {
  import opened Prelude

  /** One `hid.enumerate()` dictionary. Optional keys are `Option`s (None = key absent);
      `vendor_id` and `product_id` are always present. */
  datatype DeviceInfo = DeviceInfo(
    vendorId: int,
    productId: int,
    path: Option<seq<byte>>,
    interfaceNumber: Option<int>,
    usagePage: Option<int>,
    usage: Option<int>,
    productString: Option<string>)

  /** What `Device.write` does: return a byte count, or raise `hid.HIDException`. */
  datatype WriteOutcome = Wrote(count: int) | WriteRaised

  /** What `Device.read(n)` does: return (at most n) bytes, or raise `hid.HIDException`. */
  datatype ReadOutcome = Received(data: seq<byte>) | ReadRaised

  /** How an opened device will answer. */
  datatype Behaviour = Behaviour(write: WriteOutcome, read: ReadOutcome, closeRaises: bool)

  /** An open `hid.Device` handle. */
  class Device {
    const path: seq<byte>
    var isOpen: bool
    /** Every report handed to `write`, in order. */
    var sent: seq<seq<byte>>
    /** Environment: how the device answers. */
    const behaviour: Behaviour

    constructor (path: seq<byte>, behaviour: Behaviour)
      ensures this.path == path && this.behaviour == behaviour
      ensures isOpen && sent == []
    {
      this.path := path;
      this.behaviour := behaviour;
      isOpen := true;
      sent := [];
    }

    method Write(report: seq<byte>) returns (outcome: WriteOutcome)
      modifies this`sent
      ensures sent == old(sent) + [report]
      ensures outcome == behaviour.write
    {
      sent := sent + [report];
      outcome := behaviour.write;
    }

    /** `read(n)` never hands back more than n bytes. */
    method Read(n: nat) returns (outcome: ReadOutcome)
      ensures behaviour.read.ReadRaised? ==> outcome.ReadRaised?
      ensures behaviour.read.Received? ==>
        outcome == Received(Truncate(behaviour.read.data, n))
      ensures outcome.Received? ==> |outcome.data| <= n
    {
      match behaviour.read
      case ReadRaised => outcome := ReadRaised;
      case Received(data) => outcome := Received(Truncate(data, n));
    }

    /** The handle is closed afterwards whether or not `close` raised. */
    method Close() returns (raised: bool)
      modifies this`isOpen
      ensures !isOpen
      ensures raised == behaviour.closeRaises
    {
      isOpen := false;
      raised := behaviour.closeRaises;
    }
  }

  function Truncate(data: seq<byte>, n: nat): (r: seq<byte>)
    ensures |r| == Min(|data|, n)
    ensures r == data[..|r|]
  {
    if |data| <= n then data else data[..n]
  }

  /** The USB bus: `hid.enumerate` and the `hid.Device(path=...)` constructor. */
  class Bus {
    /** Environment: every HID interface present, or None when enumeration raises. */
    const present: Option<seq<DeviceInfo>>
    /** Environment: the paths that open, and how each opened device behaves. */
    const openable: map<seq<byte>, Behaviour>
    /** Every path an open was attempted on, in order. */
    var openAttempts: seq<seq<byte>>

    constructor (present: Option<seq<DeviceInfo>>, openable: map<seq<byte>, Behaviour>)
      ensures this.present == present && this.openable == openable
      ensures openAttempts == []
    {
      this.present := present;
      this.openable := openable;
      openAttempts := [];
    }

    /** `hid.enumerate(vid, 0)`: the present interfaces of that vendor, in bus order. */
    method Enumerate(vid: int) returns (r: Option<seq<DeviceInfo>>)
      ensures present.None? ==> r.None?
      ensures present.Some? ==> r == Some(OfVendor(present.value, vid))
    {
      if present.None? {
        r := None;
      } else {
        r := Some(OfVendor(present.value, vid));
      }
    }

    /** `hid.Device(path=path)`: a fresh open handle, or null where the constructor raises. */
    method Open(path: seq<byte>) returns (d: Device?)
      modifies this`openAttempts
      ensures openAttempts == old(openAttempts) + [path]
      ensures path in openable ==>
        d != null && fresh(d) && d.path == path && d.isOpen && d.sent == [] &&
        d.behaviour == openable[path]
      ensures path !in openable ==> d == null
    {
      openAttempts := openAttempts + [path];
      if path in openable {
        d := new Device(path, openable[path]);
      } else {
        d := null;
      }
    }
  }

  /** The entries with the given vendor id, in order. */
  function OfVendor(infos: seq<DeviceInfo>, vid: int): (r: seq<DeviceInfo>)
    ensures forall x :: x in r <==> x in infos && x.vendorId == vid
    ensures |r| <= |infos|
  {
    if infos == [] then []
    else (if infos[0].vendorId == vid then [infos[0]] else []) + OfVendor(infos[1..], vid)
  }
}
