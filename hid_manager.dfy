/** `src/headsetcontrol_tray/hid_manager.py`: `HIDConnectionManager` finds the SteelSeries
    interfaces on the bus, keeps those with a target product id, ranks them, and opens the
    best one that opens. It holds the open handle and the dictionary it came from. */
module HidManager {
  import opened Prelude
  import opened AppConfig
  import opened HidApi
  import opened StableSort

  // ---- Discovery and ranking (pure) ----

  /** The PID filter of `find_potential_hid_devices`, in enumeration order. */
  function FilterTargetPids(infos: seq<DeviceInfo>): (r: seq<DeviceInfo>)
    ensures forall d :: d in r <==> d in infos && d.productId in TargetPids
    ensures forall d :: multiset(r)[d] == if d.productId in TargetPids then multiset(infos)[d] else 0
    decreases |infos|
  {
    if infos == [] then []
    else
      assert infos == [infos[0]] + infos[1..];
      (if infos[0].productId in TargetPids then [infos[0]] else []) + FilterTargetPids(infos[1..])
  }

  /** Filtering keeps the relative order: the result is exactly the subsequence of the
      entries with a target PID. */
  lemma {:induction false} FilterTargetPidsKeepsOrder(infos: seq<DeviceInfo>)
    ensures FilterTargetPids(infos) == WithKey(infos, TargetKey, 1)
    decreases |infos|
  {
    if infos != [] {
      FilterTargetPidsKeepsOrder(infos[1..]);
      assert TargetKey(infos[0]) == 1 <==> infos[0].productId in TargetPids;
    }
  }

  /** 1 for an entry with a target PID, 0 otherwise (used to state order preservation). */
  function TargetKey(d: DeviceInfo): int {
    if d.productId in TargetPids then 1 else 0
  }

  /** The devices `find_potential_hid_devices` returns for a bus: nothing when enumeration
      raises, else the vendor's interfaces with a target PID. */
  function PotentialDevices(present: Option<seq<DeviceInfo>>): (r: seq<DeviceInfo>)
    ensures present.None? ==> r == []
  {
    match present
    case None => []
    case Some(all) => FilterTargetPids(OfVendor(all, SteelseriesVid))
  }

  /** The candidates are exactly the present interfaces of the vendor with a target PID. */
  lemma PotentialDevicesSpec(present: Option<seq<DeviceInfo>>)
    ensures present.Some? ==> forall d :: d in PotentialDevices(present) <==>
      d in present.value && d.vendorId == SteelseriesVid && d.productId in TargetPids
  {
  }

  /** `sort_key` of `sort_hid_devices`: -3 for the exact command interface (interface 3,
      usage page 0xffc0, usage 1), -2 for the user PID on its own interface, -1 for
      interface 3, 0 for usage page 0xffc0, 1 for anything else. An absent interface reads
      as -1, an absent usage page or usage as 0. */
  function SortKey(d: DeviceInfo): (k: int)
    ensures -3 <= k <= 1
    ensures var iface, page, usage :=
        d.interfaceNumber.GetOr(-1), d.usagePage.GetOr(0), d.usage.GetOr(0);
      var exact := iface == HidReportInterface && page == HidReportUsagePage && usage == HidReportUsageId;
      var userIface := d.productId == ArctisNova7UserPid && iface == ArctisNova7UserInterface;
      (k == -3 <==> exact) &&
      (k == -2 <==> !exact && userIface) &&
      (k == -1 <==> !exact && !userIface && iface == HidReportInterface) &&
      (k == 0 <==> !exact && !userIface && iface != HidReportInterface && page == HidReportUsagePage)
  {
    var iface := d.interfaceNumber.GetOr(-1);
    var usagePage := d.usagePage.GetOr(0);
    var usage := d.usage.GetOr(0);
    if iface == HidReportInterface && usagePage == HidReportUsagePage && usage == HidReportUsageId then -3
    else if d.productId == ArctisNova7UserPid && iface == ArctisNova7UserInterface then -2
    else if iface == HidReportInterface then -1
    else if usagePage == HidReportUsagePage then 0
    else 1
  }

  /** `sort_key` as the shipped configuration makes it. `app_config` defines no
      `ARCTIS_NOVA_7_USER_INTERFACE`, so evaluating `app_config.ARCTIS_NOVA_7_USER_INTERFACE`
      in the second `if` raises `AttributeError` (None here) for every entry with the user
      PID that is not the exact command interface. */
  function SortKeyAsShipped(d: DeviceInfo): (k: Option<int>)
    ensures k.None? <==> d.productId == ArctisNova7UserPid && SortKey(d) != -3
    ensures k.Some? ==> k.value == SortKey(d)
  {
    var iface := d.interfaceNumber.GetOr(-1);
    var usagePage := d.usagePage.GetOr(0);
    var usage := d.usage.GetOr(0);
    if iface == HidReportInterface && usagePage == HidReportUsagePage && usage == HidReportUsageId then Some(-3)
    else if d.productId == ArctisNova7UserPid then None
    else Some(SortKey(d))
  }

  /** `sort_hid_devices` with the shipped key: `list.sort` computes every key before it
      compares, so one raising key makes the whole ranking raise. */
  function SortHidDevicesAsShipped(devices: seq<DeviceInfo>): (r: Option<seq<DeviceInfo>>)
    ensures r.None? <==> exists i :: 0 <= i < |devices| && SortKeyAsShipped(devices[i]).None?
    ensures r.Some? ==> r.value == SortHidDevices(devices)
  {
    if forall i :: 0 <= i < |devices| ==> SortKeyAsShipped(devices[i]).Some? then Some(SortHidDevices(devices))
    else None
  }

  /** The user's own headset enumerated with its interface 0 cannot be ranked as shipped;
      with the constant at 0 that interface ranks right after the command interface. */
  lemma ShippedRankingRaisesOnUserHeadset(devices: seq<DeviceInfo>, i: nat)
    requires i < |devices| && devices[i].productId == ArctisNova7UserPid && devices[i].interfaceNumber == Some(0)
    ensures SortHidDevicesAsShipped(devices).None?
    ensures SortKey(devices[i]) == -2
  {
    assert SortKeyAsShipped(devices[i]).None?;
  }

  /** `sort_hid_devices`: a stable sort by `SortKey` of a copy (the argument is a value, so
      the caller's list is untouched). */
  function SortHidDevices(devices: seq<DeviceInfo>): (r: seq<DeviceInfo>)
    ensures |r| == |devices|
  {
    SortByPermutes(devices, SortKey);
    assert |multiset(SortBy(devices, SortKey))| == |multiset(devices)|;
    SortBy(devices, SortKey)
  }

  /** The ranking is sorted by the key and a permutation of its argument. */
  lemma SortHidDevicesSpec(devices: seq<DeviceInfo>)
    ensures SortedBy(SortHidDevices(devices), SortKey)
    ensures multiset(SortHidDevices(devices)) == multiset(devices)
  {
    SortBySorted(devices, SortKey);
    SortByPermutes(devices, SortKey);
  }

  /** The ranking is stable: candidates of equal rank keep their enumeration order. */
  lemma SortHidDevicesStable(devices: seq<DeviceInfo>)
    ensures forall k :: WithKey(SortHidDevices(devices), SortKey, k) == WithKey(devices, SortKey, k)
  {
    forall k ensures WithKey(SortHidDevices(devices), SortKey, k) == WithKey(devices, SortKey, k) {
      SortByStable(devices, SortKey, k);
    }
  }

  /** When one candidate is the exact command interface, the ranking puts such a candidate
      first, and the first of them in enumeration order. */
  lemma ExactInterfaceRankedFirst(devices: seq<DeviceInfo>, i: nat)
    requires i < |devices| && SortKey(devices[i]) == -3
    requires forall j :: 0 <= j < i ==> SortKey(devices[j]) != -3
    ensures SortHidDevices(devices)[0] == devices[i]
  {
    var r := SortHidDevices(devices);
    SortHidDevicesSpec(devices);
    assert devices[i] in multiset(r);
    var m :| 0 <= m < |r| && r[m] == devices[i];
    assert SortKey(r[0]) <= SortKey(r[m]);
    SortHidDevicesStable(devices);
    WithKeyFirst(devices, SortKey, -3, i);
    WithKeyFirst(r, SortKey, -3, 0);
  }

  /** The first element with key k heads the key-k subsequence. */
  lemma {:induction false} WithKeyFirst(s: seq<DeviceInfo>, key: DeviceInfo -> int, k: int, i: nat)
    requires i < |s| && key(s[i]) == k
    requires forall j :: 0 <= j < i ==> key(s[j]) != k
    ensures WithKey(s, key, k) != [] && WithKey(s, key, k)[0] == s[i]
    decreases i
  {
    if i > 0 {
      WithKeyFirst(s[1..], key, k, i - 1);
    }
  }

  // ---- The open loop, as specification functions ----

  /** `if not path_bytes: continue` skips an absent or empty path. */
  predicate HasPath(d: DeviceInfo) {
    d.path.Some? && d.path.value != []
  }

  predicate Opens(d: DeviceInfo, openable: map<seq<byte>, Behaviour>) {
    HasPath(d) && d.path.value in openable
  }

  /** The index of the first candidate that opens. */
  function FirstOpening(s: seq<DeviceInfo>, openable: map<seq<byte>, Behaviour>): (r: Option<nat>)
    ensures r.Some? ==> (r.value < |s| && Opens(s[r.value], openable) &&
      forall j :: 0 <= j < r.value ==> !Opens(s[j], openable))
    ensures r.None? ==> forall j :: 0 <= j < |s| ==> !Opens(s[j], openable)
    decreases |s|
  {
    if s == [] then None
    else if Opens(s[0], openable) then Some(0)
    else match FirstOpening(s[1..], openable)
      case None => None
      case Some(i) => Some(i + 1)
  }

  /** The paths an open is attempted on, for candidates tried in order. */
  function TriedPaths(s: seq<DeviceInfo>): (r: seq<seq<byte>>)
    ensures |r| <= |s|
    decreases |s|
  {
    if s == [] then []
    else
      var last := s[|s| - 1];
      TriedPaths(s[..|s| - 1]) + (if HasPath(last) then [last.path.value] else [])
  }

  /** The candidate the open loop keeps from a ranked list, and the opens it attempts. */
  function ChoiceOn(sorted: seq<DeviceInfo>, openable: map<seq<byte>, Behaviour>): (r: Option<DeviceInfo>)
    ensures r.Some? ==> Opens(r.value, openable)
  {
    match FirstOpening(sorted, openable)
    case None => None
    case Some(i) => Some(sorted[i])
  }

  function AttemptsOn(sorted: seq<DeviceInfo>, openable: map<seq<byte>, Behaviour>): seq<seq<byte>> {
    match FirstOpening(sorted, openable)
    case None => TriedPaths(sorted)
    case Some(i) => TriedPaths(sorted[..i + 1])
  }

  /** What `connect_device` keeps and attempts on a bus. */
  function ConnectChoice(present: Option<seq<DeviceInfo>>, openable: map<seq<byte>, Behaviour>): (r: Option<DeviceInfo>)
    ensures r.Some? ==> Opens(r.value, openable)
  {
    ChoiceOn(SortHidDevices(PotentialDevices(present)), openable)
  }

  /** The interface kept is one of the candidates; with none kept, no candidate opens. */
  lemma ConnectChoiceSpec(present: Option<seq<DeviceInfo>>, openable: map<seq<byte>, Behaviour>)
    ensures ConnectChoice(present, openable).Some? ==>
      ConnectChoice(present, openable).value in PotentialDevices(present)
    ensures ConnectChoice(present, openable).None? ==>
      forall d :: d in PotentialDevices(present) ==> !Opens(d, openable)
  {
    var sorted := SortHidDevices(PotentialDevices(present));
    SortHidDevicesSpec(PotentialDevices(present));
    assert forall d :: d in PotentialDevices(present) ==> d in multiset(sorted);
    match FirstOpening(sorted, openable)
    case None =>
    case Some(i) => assert sorted[i] in multiset(sorted);
  }

  function ConnectAttempts(present: Option<seq<DeviceInfo>>, openable: map<seq<byte>, Behaviour>): seq<seq<byte>> {
    AttemptsOn(SortHidDevices(PotentialDevices(present)), openable)
  }

  /** When no candidate in s opens, no tried path opens. */
  lemma {:induction false} TriedPathsFail(s: seq<DeviceInfo>, openable: map<seq<byte>, Behaviour>)
    requires forall j :: 0 <= j < |s| ==> !Opens(s[j], openable)
    ensures forall p :: p in TriedPaths(s) ==> p !in openable
    decreases |s|
  {
    if s != [] {
      TriedPathsFail(s[..|s| - 1], openable);
    }
  }

  /** Each attempt but the successful last one is a path that does not open, and nothing
      opens when no choice is made. */
  lemma AttemptsOnFail(sorted: seq<DeviceInfo>, openable: map<seq<byte>, Behaviour>)
    ensures var attempts := AttemptsOn(sorted, openable);
      ChoiceOn(sorted, openable).None? ==> forall p :: p in attempts ==> p !in openable
    ensures var attempts := AttemptsOn(sorted, openable);
      ChoiceOn(sorted, openable).Some? ==>
        (attempts != [] && attempts[|attempts| - 1] == ChoiceOn(sorted, openable).value.path.value &&
         forall p :: p in attempts[..|attempts| - 1] ==> p !in openable)
  {
    match FirstOpening(sorted, openable)
    case None =>
      TriedPathsFail(sorted, openable);
    case Some(i) =>
      var prefix := sorted[..i + 1];
      assert prefix[..|prefix| - 1] == sorted[..i];
      TriedPathsFail(sorted[..i], openable);
      var attempts := TriedPaths(prefix);
      assert attempts == TriedPaths(sorted[..i]) + [sorted[i].path.value];
      assert attempts[..|attempts| - 1] == TriedPaths(sorted[..i]);
  }

  lemma ConnectAttemptsFail(present: Option<seq<DeviceInfo>>, openable: map<seq<byte>, Behaviour>)
    ensures var attempts := ConnectAttempts(present, openable);
      ConnectChoice(present, openable).None? ==> forall p :: p in attempts ==> p !in openable
    ensures var attempts := ConnectAttempts(present, openable);
      ConnectChoice(present, openable).Some? ==>
        (attempts != [] && attempts[|attempts| - 1] == ConnectChoice(present, openable).value.path.value &&
         forall p :: p in attempts[..|attempts| - 1] ==> p !in openable)
  {
    AttemptsOnFail(SortHidDevices(PotentialDevices(present)), openable);
  }

  /** With no candidate at all nothing is attempted; otherwise at most one open per
      candidate. */
  lemma ConnectAttemptsBound(present: Option<seq<DeviceInfo>>, openable: map<seq<byte>, Behaviour>)
    ensures |ConnectAttempts(present, openable)| <= |PotentialDevices(present)|
    ensures PotentialDevices(present) == [] ==> ConnectAttempts(present, openable) == []
  {
  }

  // ---- The manager ----

  class HidConnectionManager {
    const bus: Bus
    var hidDevice: Device?
    var selectedDeviceInfo: Option<DeviceInfo>

    /** The handle and its dictionary are set and cleared together. */
    ghost predicate Valid()
      reads this, hidDevice
    {
      (hidDevice == null <==> selectedDeviceInfo.None?) &&
      (hidDevice != null ==> HasPath(selectedDeviceInfo.value) && hidDevice.path == selectedDeviceInfo.value.path.value)
    }

    constructor (bus: Bus)
      ensures this.bus == bus && hidDevice == null && selectedDeviceInfo.None?
      ensures Valid()
    {
      this.bus := bus;
      hidDevice := null;
      selectedDeviceInfo := None;
    }

    /** `find_potential_hid_devices`. */
    method FindPotentialHidDevices() returns (r: seq<DeviceInfo>)
      ensures r == PotentialDevices(bus.present)
    {
      var enumerated := bus.Enumerate(SteelseriesVid);
      if enumerated.None? {
        return [];
      }
      r := FilterTargetPids(enumerated.value);
    }

    /** `connect_device`: keep an open handle; otherwise open the best-ranked candidate
        that opens, or clear both fields. */
    method ConnectDevice() returns (device: Device?, info: Option<DeviceInfo>)
      modifies this`hidDevice, this`selectedDeviceInfo, bus`openAttempts
      ensures device == hidDevice && info == selectedDeviceInfo
      ensures old(hidDevice) != null ==>
        hidDevice == old(hidDevice) && selectedDeviceInfo == old(selectedDeviceInfo) &&
        bus.openAttempts == old(bus.openAttempts)
      ensures old(hidDevice) == null ==>
        info == ConnectChoice(bus.present, bus.openable) &&
        bus.openAttempts == old(bus.openAttempts) + ConnectAttempts(bus.present, bus.openable) &&
        (device == null <==> info.None?) &&
        (device != null ==> (fresh(device) && device.path == info.value.path.value &&
          device.isOpen && device.sent == [] && device.behaviour == bus.openable[device.path]))
      ensures old(Valid()) ==> Valid()
    {
      if hidDevice != null {
        return hidDevice, selectedDeviceInfo;
      }
      var potential := FindPotentialHidDevices();
      if potential == [] {
        assert SortHidDevices(potential) == [];
        hidDevice, selectedDeviceInfo := null, None;
        return null, None;
      }
      var sorted := SortHidDevices(potential);
      device, info := OpenFirstCandidate(sorted);
      hidDevice, selectedDeviceInfo := device, info;
    }

    /** The loop of `connect_device`: try the ranked candidates in order, skipping those
        without a path and those whose open raises, and stop at the first that opens. */
    method OpenFirstCandidate(sorted: seq<DeviceInfo>) returns (device: Device?, chosen: Option<DeviceInfo>)
      modifies bus`openAttempts
      ensures chosen == ChoiceOn(sorted, bus.openable)
      ensures bus.openAttempts == old(bus.openAttempts) + AttemptsOn(sorted, bus.openable)
      ensures device == null <==> chosen.None?
      ensures device != null ==> (fresh(device) && HasPath(chosen.value) && device.path == chosen.value.path.value &&
        device.isOpen && device.sent == [] && device.behaviour == bus.openable[device.path])
    {
      var i := 0;
      while i < |sorted|
        invariant 0 <= i <= |sorted|
        invariant forall j :: 0 <= j < i ==> !Opens(sorted[j], bus.openable)
        invariant bus.openAttempts == old(bus.openAttempts) + TriedPaths(sorted[..i])
      {
        var candidate := sorted[i];
        assert sorted[..i + 1][..i] == sorted[..i];
        if !HasPath(candidate) {
          i := i + 1;
          continue;
        }
        var handle := bus.Open(candidate.path.value);
        if handle == null {
          i := i + 1;
          continue;
        }
        assert FirstOpening(sorted, bus.openable) == Some(i);
        return handle, Some(candidate);
      }
      assert sorted[..i] == sorted;
      return null, None;
    }

    /** `ensure_connection`: true at once with a handle, else whether connecting gave one. */
    method EnsureConnection() returns (ok: bool)
      modifies this`hidDevice, this`selectedDeviceInfo, bus`openAttempts
      ensures ok <==> hidDevice != null
      ensures old(hidDevice) != null ==>
        hidDevice == old(hidDevice) && selectedDeviceInfo == old(selectedDeviceInfo) &&
        bus.openAttempts == old(bus.openAttempts)
      ensures old(hidDevice) == null ==>
        selectedDeviceInfo == ConnectChoice(bus.present, bus.openable) &&
        bus.openAttempts == old(bus.openAttempts) + ConnectAttempts(bus.present, bus.openable) &&
        (hidDevice == null <==> selectedDeviceInfo.None?) &&
        (hidDevice != null ==> (fresh(hidDevice) && hidDevice.path == selectedDeviceInfo.value.path.value &&
          hidDevice.isOpen && hidDevice.sent == [] && hidDevice.behaviour == bus.openable[hidDevice.path]))
      ensures old(Valid()) ==> Valid()
    {
      if hidDevice != null {
        return true;
      }
      var device, _ := ConnectDevice();
      ok := device != null;
    }

    /** The handle held, as a set for frames. */
    function Held(): (held: set<Device>)
      reads this
      ensures held == if hidDevice == null then {} else {hidDevice}
    {
      if hidDevice == null then {} else {hidDevice}
    }

    /** `get_hid_device`. */
    function GetHidDevice(): (d: Device?)
      reads this
      ensures d == hidDevice
    {
      hidDevice
    }

    /** `get_selected_device_info`. */
    function GetSelectedDeviceInfo(): (info: Option<DeviceInfo>)
      reads this
      ensures info == selectedDeviceInfo
    {
      selectedDeviceInfo
    }

    /** `close`: close the handle (an error from it is swallowed) and clear both fields;
        a second call does nothing more. */
    method Close()
      modifies this`hidDevice, this`selectedDeviceInfo, Held()`isOpen
      ensures hidDevice == null
      ensures old(hidDevice) != null ==> (selectedDeviceInfo.None? && !old(hidDevice).isOpen)
      ensures old(hidDevice) == null ==> selectedDeviceInfo == old(selectedDeviceInfo)
      ensures old(Valid()) ==> Valid()
    {
      if hidDevice != null {
        var _ := hidDevice.Close();
        hidDevice := null;
        selectedDeviceInfo := None;
      }
    }
  }
}
