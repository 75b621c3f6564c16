/** `headsetcontrol_tray/headset_service.py`: the older, monolithic `HeadsetService`, which
    enumerates, ranks and opens the HID interface itself, frames and writes reports, parses
    the status report inline and builds the command payloads, and prepares a udev rule
    file when no interface opens. */
module LegacyService {
  import opened Prelude
  import opened AppConfig
  import opened HidApi
  import opened StableSort
  import opened OsApi
  import HidManager
  import HidCommunicator
  import HeadsetStatus
  import UdevManager

  // ---- Ranking and the open loop, as specification functions ----

  /** `sort_key` of `_connect_hid_device`: -2 for the exact command interface, -1 for the
      user PID on interface 0, 0 for interface 3, 1 for usage page 0xFFC0, 2 otherwise. A
      key absent from the dictionary compares unequal to everything. */
  function SortKey(d: DeviceInfo): (k: int)
    ensures -2 <= k <= 2
    ensures var exact := d.vendorId == SteelseriesVid && d.productId in TargetPids &&
        d.interfaceNumber == Some(HidReportInterface) && d.usagePage == Some(HidReportUsagePage) &&
        d.usage == Some(HidReportUsageId);
      var userIface := d.productId == 0x2202 && d.interfaceNumber == Some(0);
      (k == -2 <==> exact) &&
      (k == -1 <==> !exact && userIface) &&
      (k == 0 <==> !exact && !userIface && d.interfaceNumber == Some(3)) &&
      (k == 1 <==> !exact && !userIface && d.interfaceNumber != Some(3) && d.usagePage == Some(0xFFC0))
  {
    if d.vendorId == SteelseriesVid && d.productId in TargetPids &&
       d.interfaceNumber == Some(HidReportInterface) && d.usagePage == Some(HidReportUsagePage) &&
       d.usage == Some(HidReportUsageId) then -2
    else if d.productId == 0x2202 && d.interfaceNumber == Some(0) then -1
    else if d.interfaceNumber == Some(3) then 0
    else if d.usagePage == Some(0xFFC0) then 1
    else 2
  }

  /** On an interface of the vendor with a target PID — every candidate — the legacy rank
      is the maintained manager's rank plus one. */
  lemma SortKeyIsManagerRankShifted(d: DeviceInfo)
    requires d.vendorId == SteelseriesVid && d.productId in TargetPids
    ensures SortKey(d) == HidManager.SortKey(d) + 1
  {
  }

  /** The candidates in the order they are tried: the enumeration filtered by PID (as the
      manager does it), then stably sorted by `SortKey`. */
  function Ranked(present: Option<seq<DeviceInfo>>): (r: seq<DeviceInfo>)
    ensures |r| == |HidManager.PotentialDevices(present)|
  {
    var candidates := HidManager.PotentialDevices(present);
    SortByPermutes(candidates, SortKey);
    assert |multiset(SortBy(candidates, SortKey))| == |multiset(candidates)|;
    SortBy(candidates, SortKey)
  }

  /** The ranked candidates are sorted by the key and are a permutation of the
      candidates. */
  lemma RankedSortsCandidates(present: Option<seq<DeviceInfo>>)
    ensures SortedBy(Ranked(present), SortKey)
    ensures multiset(Ranked(present)) == multiset(HidManager.PotentialDevices(present))
  {
    SortBySorted(HidManager.PotentialDevices(present), SortKey);
    SortByPermutes(HidManager.PotentialDevices(present), SortKey);
  }

  /** The legacy service ranks exactly as the maintained manager does. */
  lemma RankedAsManager(present: Option<seq<DeviceInfo>>)
    ensures Ranked(present) == HidManager.SortHidDevices(HidManager.PotentialDevices(present))
  {
    var candidates := HidManager.PotentialDevices(present);
    forall y | y in candidates ensures SortKey(y) == HidManager.SortKey(y) + 1 {
      SortKeyIsManagerRankShifted(y);
    }
    SortByKeyShift(candidates, SortKey, HidManager.SortKey, 1);
  }

  /** `hid.Device(path=...)` succeeds on the candidate's path. Unlike the manager, the
      legacy loop also tries an empty path. */
  predicate Opens(d: DeviceInfo, openable: map<seq<byte>, Behaviour>) {
    d.path.Some? && d.path.value in openable
  }

  function FirstOpening(s: seq<DeviceInfo>, openable: map<seq<byte>, Behaviour>): (r: Option<nat>)
    ensures r.Some? ==> (r.value < |s| && Opens(s[r.value], openable) &&
      forall j :: 0 <= j < r.value ==> !Opens(s[j], openable))
    ensures r.None? ==> forall j :: 0 <= j < |s| ==> !Opens(s[j], openable)
    decreases |s|
  {
    if s == [] then None
    else if Opens(s[0], openable) then Some(0)
    else match FirstOpening(s[1..], openable)
      case None => None
      case Some(i) => Some(i + 1)
  }

  /** The paths an open is attempted on, for candidates tried in order. */
  function TriedPaths(s: seq<DeviceInfo>): (r: seq<seq<byte>>)
    ensures |r| <= |s|
    decreases |s|
  {
    if s == [] then []
    else
      var last := s[|s| - 1];
      TriedPaths(s[..|s| - 1]) + (if last.path.Some? then [last.path.value] else [])
  }

  /** The candidate the loop of `_connect_hid_device` keeps from a ranked list, and the
      opens it attempts on the way. */
  function ChoiceOn(ranked: seq<DeviceInfo>, openable: map<seq<byte>, Behaviour>): (r: Option<DeviceInfo>)
    ensures r.Some? ==> Opens(r.value, openable)
  {
    match FirstOpening(ranked, openable)
    case None => None
    case Some(i) => Some(ranked[i])
  }

  function AttemptsOn(ranked: seq<DeviceInfo>, openable: map<seq<byte>, Behaviour>): seq<seq<byte>> {
    match FirstOpening(ranked, openable)
    case None => TriedPaths(ranked)
    case Some(i) => TriedPaths(ranked[..i + 1])
  }

  /** The candidate `_connect_hid_device` keeps on a bus, and the opens it attempts. */
  function ConnectChoice(present: Option<seq<DeviceInfo>>, openable: map<seq<byte>, Behaviour>): (r: Option<DeviceInfo>)
    ensures r.Some? ==> Opens(r.value, openable)
  {
    ChoiceOn(Ranked(present), openable)
  }

  function ConnectAttempts(present: Option<seq<DeviceInfo>>, openable: map<seq<byte>, Behaviour>): seq<seq<byte>> {
    AttemptsOn(Ranked(present), openable)
  }

  /** The interface kept opens and is one of the candidates; with none kept, no
      candidate opens. */
  lemma ConnectChoiceSpec(present: Option<seq<DeviceInfo>>, openable: map<seq<byte>, Behaviour>)
    ensures ConnectChoice(present, openable).Some? ==>
      ConnectChoice(present, openable).value in HidManager.PotentialDevices(present)
    ensures ConnectChoice(present, openable).None? ==>
      forall d :: d in HidManager.PotentialDevices(present) ==> !Opens(d, openable)
  {
    var ranked := Ranked(present);
    RankedSortsCandidates(present);
    assert forall d :: d in HidManager.PotentialDevices(present) ==> d in multiset(ranked);
    match FirstOpening(ranked, openable)
    case None =>
    case Some(i) => assert ranked[i] in multiset(ranked);
  }

  lemma {:induction false} FirstOpeningAsManager(s: seq<DeviceInfo>, openable: map<seq<byte>, Behaviour>)
    requires forall d :: d in s ==> HidManager.HasPath(d)
    ensures FirstOpening(s, openable) == HidManager.FirstOpening(s, openable)
    decreases |s|
  {
    if s != [] {
      assert s[0] in s;
      assert forall d :: d in s[1..] ==> d in s;
      FirstOpeningAsManager(s[1..], openable);
    }
  }

  lemma {:induction false} TriedPathsAsManager(s: seq<DeviceInfo>)
    requires forall d :: d in s ==> HidManager.HasPath(d)
    ensures TriedPaths(s) == HidManager.TriedPaths(s)
    decreases |s|
  {
    if s != [] {
      assert s[|s| - 1] in s;
      assert forall d :: d in s[..|s| - 1] ==> d in s;
      TriedPathsAsManager(s[..|s| - 1]);
    }
  }

  /** Ranking keeps the candidates, so it keeps their paths. */
  lemma RankedHavePaths(present: Option<seq<DeviceInfo>>)
    requires forall d :: d in HidManager.PotentialDevices(present) ==> HidManager.HasPath(d)
    ensures forall d :: d in Ranked(present) ==> HidManager.HasPath(d)
  {
    RankedSortsCandidates(present);
    forall d | d in Ranked(present) ensures HidManager.HasPath(d) {
      assert d in multiset(Ranked(present));
    }
  }

  /** When every candidate has a non-empty path, the legacy service and the maintained
      manager try the same paths in the same order and keep the same interface. */
  lemma ConnectAsManager(present: Option<seq<DeviceInfo>>, openable: map<seq<byte>, Behaviour>)
    requires forall d :: d in HidManager.PotentialDevices(present) ==> HidManager.HasPath(d)
    ensures ConnectChoice(present, openable) == HidManager.ConnectChoice(present, openable)
    ensures ConnectAttempts(present, openable) == HidManager.ConnectAttempts(present, openable)
  {
    RankedAsManager(present);
    RankedHavePaths(present);
    ChoiceOnAsManager(Ranked(present), openable);
  }

  /** On a ranked list whose candidates all have paths, both loops keep the same
      interface and attempt the same opens. */
  lemma ChoiceOnAsManager(ranked: seq<DeviceInfo>, openable: map<seq<byte>, Behaviour>)
    requires forall d :: d in ranked ==> HidManager.HasPath(d)
    ensures ChoiceOn(ranked, openable) == HidManager.ChoiceOn(ranked, openable)
    ensures AttemptsOn(ranked, openable) == HidManager.AttemptsOn(ranked, openable)
  {
    FirstOpeningAsManager(ranked, openable);
    match FirstOpening(ranked, openable)
    case None =>
      TriedPathsAsManager(ranked);
    case Some(i) =>
      assert forall d :: d in ranked[..i + 1] ==> d in ranked;
      TriedPathsAsManager(ranked[..i + 1]);
  }

  // ---- Udev rule file ----

  /** `UDEV_RULE_CONTENT` of this module: the rule lines joined, without a final newline. */
  function UdevRuleContent(): string {
    Join(UdevManager.RuleLines(), "\n")
  }

  /** What `_create_udev_rules` writes, its content plus a newline, is exactly the
      maintained rule file: one line per target product id. */
  lemma WrittenRulesAsManager()
    ensures UdevRuleContent() + "\n" == UdevManager.UdevRuleContent()
    ensures Split(UdevRuleContent() + "\n", '\n') == UdevManager.RuleLines() + [""]
  {
    UdevManager.UdevRuleContentLines();
  }

  /** The dictionary `_create_udev_rules` records: `temp_file_path`, `final_file_path` and
      `rule_filename`. */
  datatype UdevDetails = UdevDetails(tempFilePath: string, finalFilePath: string, ruleFilename: string)

  const TempPrefix: string := "headsetcontrol_"

  /** `os.path.join("/etc/udev/rules.d/", UDEV_RULE_FILENAME)`. */
  function FinalRulesPath(): (path: string)
    ensures path == UdevManager.FinalRulesPath()
  {
    "/etc/udev/rules.d/" + UdevManager.UdevRuleFilename
  }

  // ---- The status report, parsed inline ----

  /** The dictionary `_get_parsed_status_hid` returns. */
  datatype ParsedStatus = ParsedStatus(
    headsetOnline: bool, batteryPercent: Option<int>, batteryCharging: Option<bool>, chatmix: Option<int>)

  /** The inline parse of a status report: None for an empty or short report; offline
      (and nothing else known) when the status byte is 0; charging exactly when it is 1;
      the battery bucket table; and the same clamped ChatMix formula as the maintained
      parser, which the code repeats word for word. */
  function ParseStatus(data: seq<byte>): (r: Option<ParsedStatus>)
    ensures r.None? <==> |data| < HidInputReportLengthStatus
    ensures r.Some? ==> (r.value.headsetOnline <==> data[HidResStatusBatteryStatusByte] != 0x00)
    ensures r.Some? && !r.value.headsetOnline ==>
      r.value.batteryPercent.None? && r.value.batteryCharging.None? && r.value.chatmix.None?
    ensures r.Some? && r.value.headsetOnline ==>
      r.value.batteryCharging == Some(data[HidResStatusBatteryStatusByte] == 0x01) &&
      (r.value.batteryPercent.Some? <==> data[HidResStatusBatteryLevelByte] <= 4) &&
      (r.value.batteryPercent.Some? ==> r.value.batteryPercent.value == 25 * data[HidResStatusBatteryLevelByte] as int) &&
      r.value.chatmix.Some? && 0 <= r.value.chatmix.value <= 128
  {
    if data == [] || |data| < HidInputReportLengthStatus then None
    else
      var rawLevel := data[HidResStatusBatteryLevelByte];
      var percent :=
        if rawLevel == 0x00 then Some(0)
        else if rawLevel == 0x01 then Some(25)
        else if rawLevel == 0x02 then Some(50)
        else if rawLevel == 0x03 then Some(75)
        else if rawLevel == 0x04 then Some(100)
        else None;
      var rawStatus := data[HidResStatusBatteryStatusByte];
      if rawStatus == 0x00 then Some(ParsedStatus(false, None, None, None))
      else
        Some(ParsedStatus(true, percent, Some(rawStatus == 0x01),
          Some(HeadsetStatus.ChatmixValue(data[HidResStatusChatmixGameByte], data[HidResStatusChatmixChatByte]))))
  }

  /** The inline parse agrees field for field with the maintained `parse_status_report`. */
  lemma ParseStatusAsParser(data: seq<byte>)
    ensures match HeadsetStatus.ParseStatusReport(data)
      case None => ParseStatus(data).None?
      case Some(s) => ParseStatus(data) == Some(ParsedStatus(s.headsetOnline, s.batteryPercent, s.batteryCharging, s.chatmix))
  {
  }

  // ---- Command payloads ----

  /** The sidetone payload of `_set_sidetone_level_hid`: a 4-bucket value after the
      prefix. */
  function SidetonePayload(level: int): (payload: seq<byte>)
    ensures |payload| == 3 && payload[..2] == HidCmdSetSidetonePrefix && payload[2] <= 3
  {
    var mapped: byte := if level < 26 then 0x00 else if level < 51 then 0x01 else if level < 76 then 0x02 else 0x03;
    HidCmdSetSidetonePrefix + [mapped]
  }

  /** `set_sidetone_level` (clamp, then bucket) sends the maintained encoder's command. */
  lemma SidetoneAsEncoder(level: int)
    ensures SidetonePayload(Clamp(level, 0, 128)) == HeadsetStatus.EncodeSetSidetone(level)
  {
  }

  /** The timeout payload of `_set_inactive_timeout_hid`: the minutes as given. */
  function InactiveTimeoutPayload(minutes: byte): (payload: seq<byte>)
    ensures |payload| == 3 && payload[..2] == HidCmdSetInactiveTimePrefix && payload[2] == minutes
  {
    HidCmdSetInactiveTimePrefix + [minutes]
  }

  /** `set_inactive_timeout` (clamp to 0..90, then send) sends the maintained encoder's
      command. */
  lemma InactiveTimeoutAsEncoder(minutes: int)
    ensures InactiveTimeoutPayload(Clamp(minutes, 0, 90) as byte) == HeadsetStatus.EncodeSetInactiveTimeout(minutes)
  {
  }

  /** One band byte of `_set_eq_values_hid`: `max(0, min(255, int(0x14 + clamp(v))))`. */
  function EqByte(v: real): (b: byte)
    ensures b == HeadsetStatus.EqBandByte(v)
  {
    HeadsetStatus.EqBandClampIsIdentity(v);
    Clamp(HeadsetStatus.UnclampedEqBand(v), 0, 255)
  }

  /** The payload loop of `_set_eq_values_hid`: the prefix, one clamped band byte per
      value appended in order, and the slot byte 0x00 once there are twelve bytes; the
      result is the maintained encoder's command. */
  method EqBandsPayload(values: seq<real>) returns (commandPayload: seq<byte>)
    requires |values| == 10
    ensures commandPayload == HeadsetStatus.EncodeSetEqValues(values).value
  {
    commandPayload := HidCmdSetEqBandsPrefix;
    var i := 0;
    while i < |values|
      invariant 0 <= i <= |values|
      invariant |commandPayload| == 2 + i && commandPayload[..2] == HidCmdSetEqBandsPrefix
      invariant forall j :: 0 <= j < i ==> commandPayload[2 + j] == HeadsetStatus.EqBandByte(values[j])
    {
      var byteValue := EqByte(values[i]);
      commandPayload := commandPayload + [byteValue];
      i := i + 1;
    }
    assert |commandPayload| == 12;
    commandPayload := commandPayload + [0x00];
  }

  // ---- The service ----

  class LegacyHeadsetService {
    /** The `hid` library's view of the bus and the temporary directory. */
    const bus: Bus
    const tempFiles: TempFiles
    var hidDevice: Device?
    var devicePath: Option<seq<byte>>
    var udevSetupDetails: Option<UdevDetails>
    var lastHidRawReadData: Option<seq<byte>>
    var lastHidParsedStatus: Option<ParsedStatus>
    var lastRawBatteryStatusForLogging: Option<byte>

    /** The handle held, as a set for frames. */
    function Held(): (held: set<Device>)
      reads this`hidDevice
      ensures held == if hidDevice == null then {} else {hidDevice}
    {
      if hidDevice == null then {} else {hidDevice}
    }

    /** A held handle is the one opened on the recorded path. */
    ghost predicate Valid()
      reads this`hidDevice, this`devicePath
    {
      hidDevice != null ==> devicePath == Some(hidDevice.path)
    }

    /** The state `__init__` sets before it connects. */
    constructor (bus: Bus, tempFiles: TempFiles)
      ensures this.bus == bus && this.tempFiles == tempFiles
      ensures hidDevice == null && devicePath.None? && udevSetupDetails.None?
      ensures lastHidRawReadData.None? && lastHidParsedStatus.None? && lastRawBatteryStatusForLogging.None?
      ensures Valid()
    {
      this.bus := bus;
      this.tempFiles := tempFiles;
      hidDevice := null;
      devicePath := None;
      udevSetupDetails := None;
      lastHidRawReadData := None;
      lastHidParsedStatus := None;
      lastRawBatteryStatusForLogging := None;
    }

    /** After `_create_udev_rules`: with the file written, the details name it; on
        an error they are None and nothing is written. */
    ghost predicate RulesCreated(filesBefore: map<string, string>)
      reads this`udevSetupDetails, tempFiles`files
    {
      var name := tempFiles.NextName(TempPrefix, "");
      if tempFiles.failing then
        udevSetupDetails.None? && tempFiles.files == filesBefore
      else
        udevSetupDetails == Some(UdevDetails(name, FinalRulesPath(), UdevManager.UdevRuleFilename)) &&
        tempFiles.files == filesBefore[name := UdevRuleContent() + "\n"]
    }

    /** After `_connect_hid_device` from no handle: the opens attempted; with an
        interface chosen, its handle and path held and the rules untouched; with none,
        both cleared and the rules prepared once. */
    ghost predicate ConnectedFromNothing(ok: bool, attemptsBefore: seq<seq<byte>>,
      filesBefore: map<string, string>, detailsBefore: Option<UdevDetails>)
      reads this`hidDevice, this`devicePath, this`udevSetupDetails, bus`openAttempts, tempFiles`files, Held()`sent, Held()`isOpen
    {
      var choice := ConnectChoice(bus.present, bus.openable);
      bus.openAttempts == attemptsBefore + ConnectAttempts(bus.present, bus.openable) &&
      (ok <==> choice.Some?) &&
      (choice.None? ==> hidDevice == null && devicePath.None? && RulesCreated(filesBefore)) &&
      (choice.Some? ==>
        hidDevice != null && devicePath == choice.value.path && hidDevice.path == choice.value.path.value &&
        hidDevice.isOpen && hidDevice.sent == [] && hidDevice.behaviour == bus.openable[hidDevice.path] &&
        udevSetupDetails == detailsBefore && tempFiles.files == filesBefore)
    }

    /** `_create_udev_rules`: clears the details, writes the rules to a new temporary
        file, and records it with the final path and the file name. */
    method CreateUdevRules() returns (ok: bool)
      modifies this`udevSetupDetails, tempFiles`files
      ensures ok <==> !tempFiles.failing
      ensures RulesCreated(old(tempFiles.files))
    {
      var finalRulesPath := FinalRulesPath();
      udevSetupDetails := None;
      var name := tempFiles.WriteNamedTemporaryFile(TempPrefix, "", UdevRuleContent() + "\n");
      if name.None? {
        udevSetupDetails := None;
        return false;
      }
      udevSetupDetails := Some(UdevDetails(name.value, finalRulesPath, UdevManager.UdevRuleFilename));
      return true;
    }

    /** The loop of `_connect_hid_device`: try the ranked candidates in order, skipping
        those without a path and those whose open raises, and stop at the first that opens. */
    method OpenFirstCandidate(ranked: seq<DeviceInfo>) returns (device: Device?, chosen: Option<DeviceInfo>)
      modifies bus`openAttempts
      ensures chosen == ChoiceOn(ranked, bus.openable)
      ensures bus.openAttempts == old(bus.openAttempts) + AttemptsOn(ranked, bus.openable)
      ensures device == null <==> chosen.None?
      ensures device != null ==> (fresh(device) && chosen.value.path == Some(device.path) &&
        device.isOpen && device.sent == [] && device.behaviour == bus.openable[device.path])
    {
      var i := 0;
      while i < |ranked|
        invariant 0 <= i <= |ranked|
        invariant forall j :: 0 <= j < i ==> !Opens(ranked[j], bus.openable)
        invariant bus.openAttempts == old(bus.openAttempts) + TriedPaths(ranked[..i])
      {
        var candidate := ranked[i];
        assert ranked[..i + 1][..i] == ranked[..i];
        if candidate.path.None? {
          i := i + 1;
          continue;
        }
        var handle := bus.Open(candidate.path.value);
        if handle == null {
          i := i + 1;
          continue;
        }
        assert FirstOpening(ranked, bus.openable) == Some(i);
        return handle, Some(candidate);
      }
      assert ranked[..i] == ranked;
      return null, None;
    }

    /** The discovery part of `_connect_hid_device`: enumerate the vendor's interfaces,
        keep the target PIDs, rank them with `SortKey` and open the first that opens. */
    method OpenBestCandidate() returns (handle: Device?, chosen: Option<DeviceInfo>)
      modifies bus`openAttempts
      ensures chosen == ConnectChoice(bus.present, bus.openable)
      ensures bus.openAttempts == old(bus.openAttempts) + ConnectAttempts(bus.present, bus.openable)
      ensures handle == null <==> chosen.None?
      ensures handle != null ==> (fresh(handle) && chosen.value.path == Some(handle.path) &&
        handle.isOpen && handle.sent == [] && handle.behaviour == bus.openable[handle.path])
    {
      var enumerated := bus.Enumerate(SteelseriesVid);
      var devicesEnum := if enumerated.None? then [] else enumerated.value;
      var potential := HidManager.FilterTargetPids(devicesEnum);
      assert potential == HidManager.PotentialDevices(bus.present);
      handle, chosen := null, None;
      if potential != [] {
        // `list.sort` on the local list.
        potential := SortBy(potential, SortKey);
        assert potential == Ranked(bus.present);
        handle, chosen := OpenFirstCandidate(potential);
      } else {
        assert Ranked(bus.present) == [];
      }
    }

    /** `_connect_hid_device`. */
    method ConnectHidDevice() returns (ok: bool)
      modifies this`hidDevice, this`devicePath, this`udevSetupDetails, bus`openAttempts, tempFiles`files
      ensures old(hidDevice) != null ==>
        ok && hidDevice == old(hidDevice) && devicePath == old(devicePath) &&
        udevSetupDetails == old(udevSetupDetails) && bus.openAttempts == old(bus.openAttempts) &&
        tempFiles.files == old(tempFiles.files)
      ensures old(hidDevice) == null ==>
        ConnectedFromNothing(ok, old(bus.openAttempts), old(tempFiles.files), old(udevSetupDetails)) &&
        (hidDevice != null ==> fresh(hidDevice))
      ensures old(Valid()) ==> Valid()
    {
      if hidDevice != null {
        return true;
      }
      ghost var attempts0, files0, details0 := bus.openAttempts, tempFiles.files, udevSetupDetails;
      var handle, chosen := OpenBestCandidate();
      if handle != null {
        hidDevice := handle;
        devicePath := chosen.value.path;
        ok := true;
      } else {
        ForgetAndCreateRules();
        ok := false;
      }
      assert ConnectedFromNothing(ok, attempts0, files0, details0);
    }

    /** The branch of `_connect_hid_device` where no candidate opened: forget the handle
        and its path, then prepare the rules. */
    method ForgetAndCreateRules()
      modifies this`hidDevice, this`devicePath, this`udevSetupDetails, tempFiles`files
      ensures hidDevice == null && devicePath.None?
      ensures RulesCreated(old(tempFiles.files))
    {
      hidDevice := null;
      devicePath := None;
      var _ := CreateUdevRules();
    }

    /** `_ensure_hid_connection`. */
    method EnsureHidConnection() returns (ok: bool)
      modifies this`hidDevice, this`devicePath, this`udevSetupDetails, bus`openAttempts, tempFiles`files
      ensures ok <==> hidDevice != null
      ensures old(hidDevice) != null ==>
        hidDevice == old(hidDevice) && devicePath == old(devicePath) &&
        udevSetupDetails == old(udevSetupDetails) && bus.openAttempts == old(bus.openAttempts) &&
        tempFiles.files == old(tempFiles.files)
      ensures old(hidDevice) == null ==>
        ConnectedFromNothing(ok, old(bus.openAttempts), old(tempFiles.files), old(udevSetupDetails)) &&
        (hidDevice != null ==> fresh(hidDevice))
      ensures old(Valid()) ==> Valid()
    {
      if hidDevice == null {
        ok := ConnectHidDevice();
        return;
      }
      return true;
    }

    /** `close`: close a held handle (ignoring an error) and forget it and its path. */
    method Close()
      modifies this`hidDevice, this`devicePath, Held()`isOpen
      ensures hidDevice == null
      ensures old(hidDevice) != null ==> devicePath.None? && !old(hidDevice).isOpen
      ensures old(hidDevice) == null ==> devicePath == old(devicePath)
      ensures Valid()
    {
      if hidDevice != null {
        var _ := hidDevice.Close();
        hidDevice := null;
        devicePath := None;
      }
    }

    /** After a connect-then-write of `frame` that returned `ok`. With a handle held
        before, the frame went to it, with no open attempted and the rules untouched;
        `ok` is the write's success, and a failed write closes and forgets the handle.
        Without one, the connection is made as `_connect_hid_device` makes it, and a
        chosen interface then receives the frame as its first report. */
    ghost predicate Wrote(frame: seq<byte>, ok: bool, before: Device?, sentBefore: seq<seq<byte>>,
      pathBefore: Option<seq<byte>>, attemptsBefore: seq<seq<byte>>, filesBefore: map<string, string>,
      detailsBefore: Option<UdevDetails>)
      reads this`hidDevice, this`devicePath, this`udevSetupDetails, bus`openAttempts, tempFiles`files, Held()`sent
      reads (if before == null then {} else {before})`sent, (if before == null then {} else {before})`isOpen
    {
      if before != null then
        bus.openAttempts == attemptsBefore && udevSetupDetails == detailsBefore && tempFiles.files == filesBefore &&
        before.sent == sentBefore + [frame] &&
        (ok <==> HidCommunicator.WriteSucceeded(before.behaviour.write)) &&
        (ok ==> hidDevice == before && devicePath == pathBefore) &&
        (!ok ==> hidDevice == null && devicePath.None? && !before.isOpen)
      else
        var choice := ConnectChoice(bus.present, bus.openable);
        bus.openAttempts == attemptsBefore + ConnectAttempts(bus.present, bus.openable) &&
        (choice.None? ==> !ok && hidDevice == null && devicePath.None? && RulesCreated(filesBefore)) &&
        (choice.Some? ==>
          udevSetupDetails == detailsBefore && tempFiles.files == filesBefore &&
          (ok <==> HidCommunicator.WriteSucceeded(bus.openable[choice.value.path.value].write)) &&
          (ok ==> hidDevice != null && hidDevice.path == choice.value.path.value &&
                  devicePath == choice.value.path && hidDevice.sent == [frame]) &&
          (!ok ==> hidDevice == null && devicePath.None?))
    }

    /** `_write_hid_report`: connect if need be, frame the data (the report id in front
        when positive) and write it; a count of 0 or less, or an error, closes the
        handle. */
    method WriteHidReport(reportId: int, data: seq<byte>) returns (ok: bool)
      requires reportId < 256
      modifies this`hidDevice, this`devicePath, this`udevSetupDetails, bus`openAttempts, tempFiles`files
      modifies Held()`sent, Held()`isOpen
      ensures Wrote(HidCommunicator.Frame(reportId, data), ok, old(hidDevice),
        old(if hidDevice == null then [] else hidDevice.sent), old(devicePath),
        old(bus.openAttempts), old(tempFiles.files), old(udevSetupDetails))
      ensures old(hidDevice) == null && hidDevice != null ==> fresh(hidDevice)
      ensures old(Valid()) ==> Valid()
    {
      var connected := EnsureHidConnection();
      if !connected || hidDevice == null {
        return false;
      }
      ok := WriteHeld(HidCommunicator.Frame(reportId, data));
    }

    /** The write step of `_write_hid_report` on the held handle: the frame is handed to
        it, and a failed write closes and forgets it. */
    method WriteHeld(frame: seq<byte>) returns (ok: bool)
      requires hidDevice != null
      modifies this`hidDevice, this`devicePath, Held()`sent, Held()`isOpen
      ensures old(hidDevice).sent == old(hidDevice.sent) + [frame]
      ensures ok <==> HidCommunicator.WriteSucceeded(old(hidDevice).behaviour.write)
      ensures ok ==> hidDevice == old(hidDevice) && devicePath == old(devicePath)
      ensures !ok ==> hidDevice == null && devicePath.None? && !old(hidDevice).isOpen
    {
      var outcome := hidDevice.Write(frame);
      if !HidCommunicator.WriteSucceeded(outcome) {
        Close();
        return false;
      }
      return true;
    }

    /** The step every command method takes: `_ensure_hid_connection`, and with a handle
        `_write_hid_report(report_id=0, ...)` of the payload. `connected` tells the two
        failures apart. */
    method SendCommand(payload: seq<byte>) returns (ok: bool, connected: bool)
      modifies this`hidDevice, this`devicePath, this`udevSetupDetails, bus`openAttempts, tempFiles`files
      modifies Held()`sent, Held()`isOpen
      ensures Wrote(payload, ok, old(hidDevice),
        old(if hidDevice == null then [] else hidDevice.sent), old(devicePath),
        old(bus.openAttempts), old(tempFiles.files), old(udevSetupDetails))
      ensures !connected <==> old(hidDevice) == null && ConnectChoice(bus.present, bus.openable).None?
      ensures ok ==> connected
      ensures ok <==> hidDevice != null
      ensures old(hidDevice) == null && hidDevice != null ==> fresh(hidDevice)
      ensures old(Valid()) ==> Valid()
    {
      connected := EnsureHidConnection();
      if !connected || hidDevice == null {
        return false, false;
      }
      assert HidCommunicator.Frame(0, payload) == payload;
      ok := WriteHidReport(0, payload);
    }

    /** `_get_parsed_status_hid`. `raised` is the error of the unguarded `read`, which
        propagates to the caller. */
    method GetParsedStatusHid() returns (status: Option<ParsedStatus>, raised: bool, ghost written: bool)
      modifies this`hidDevice, this`devicePath, this`udevSetupDetails, bus`openAttempts, tempFiles`files
      modifies Held()`sent, Held()`isOpen
      modifies this`lastHidRawReadData, this`lastHidParsedStatus, this`lastRawBatteryStatusForLogging
      ensures Wrote(HidCmdGetStatus, written, old(hidDevice),
        old(if hidDevice == null then [] else hidDevice.sent), old(devicePath),
        old(bus.openAttempts), old(tempFiles.files), old(udevSetupDetails))
      ensures !written ==> status.None? && !raised && lastRawBatteryStatusForLogging == old(lastRawBatteryStatusForLogging)
      ensures !written ==> hidDevice == null
      ensures !written && old(hidDevice) == null && ConnectChoice(bus.present, bus.openable).None? ==>
        lastHidRawReadData.None? && lastHidParsedStatus.None?
      ensures !written && !(old(hidDevice) == null && ConnectChoice(bus.present, bus.openable).None?) ==>
        lastHidRawReadData == old(lastHidRawReadData) && lastHidParsedStatus == old(lastHidParsedStatus)
      ensures written ==> hidDevice != null
      ensures written && hidDevice.behaviour.read.ReadRaised? ==>
        raised && status.None? && lastHidRawReadData == old(lastHidRawReadData) &&
        lastHidParsedStatus == old(lastHidParsedStatus) &&
        lastRawBatteryStatusForLogging == old(lastRawBatteryStatusForLogging)
      ensures written && hidDevice.behaviour.read.Received? ==>
        var data := Truncate(hidDevice.behaviour.read.data, HidInputReportLengthStatus);
        !raised && status == ParseStatus(data) && lastHidParsedStatus == status &&
        (status.None? ==> lastHidRawReadData.None? &&
                          lastRawBatteryStatusForLogging == old(lastRawBatteryStatusForLogging)) &&
        (status.Some? ==> lastHidRawReadData == Some(data) &&
                          lastRawBatteryStatusForLogging == Some(data[HidResStatusBatteryStatusByte]))
      ensures old(hidDevice) == null && hidDevice != null ==> fresh(hidDevice)
      ensures old(Valid()) ==> Valid()
    {
      var successWrite, connected := SendCommand(HidCmdGetStatus);
      written := successWrite;
      status, raised := ReadStatusReply(connected, successWrite);
    }

    /** The part of `_get_parsed_status_hid` after the request: without a connection
        both caches are cleared; after a failed write nothing changes; otherwise the
        reply is read, a short one clears both caches and a full one is parsed and
        cached with its raw status byte. */
    method ReadStatusReply(connected: bool, written: bool) returns (status: Option<ParsedStatus>, raised: bool)
      requires written ==> hidDevice != null
      modifies this`lastHidRawReadData, this`lastHidParsedStatus, this`lastRawBatteryStatusForLogging
      ensures !written ==> status.None? && !raised && lastRawBatteryStatusForLogging == old(lastRawBatteryStatusForLogging)
      ensures !connected ==> lastHidRawReadData.None? && lastHidParsedStatus.None?
      ensures connected && !written ==>
        lastHidRawReadData == old(lastHidRawReadData) && lastHidParsedStatus == old(lastHidParsedStatus)
      ensures connected && written && hidDevice.behaviour.read.ReadRaised? ==>
        raised && status.None? && lastHidRawReadData == old(lastHidRawReadData) &&
        lastHidParsedStatus == old(lastHidParsedStatus) &&
        lastRawBatteryStatusForLogging == old(lastRawBatteryStatusForLogging)
      ensures connected && written && hidDevice.behaviour.read.Received? ==>
        var data := Truncate(hidDevice.behaviour.read.data, HidInputReportLengthStatus);
        !raised && status == ParseStatus(data) && lastHidParsedStatus == status &&
        (status.None? ==> lastHidRawReadData.None? &&
                          lastRawBatteryStatusForLogging == old(lastRawBatteryStatusForLogging)) &&
        (status.Some? ==> lastHidRawReadData == Some(data) &&
                          lastRawBatteryStatusForLogging == Some(data[HidResStatusBatteryStatusByte]))
    {
      status, raised := None, false;
      if !connected {
        lastHidRawReadData, lastHidParsedStatus := None, None;
        return;
      }
      if !written {
        return;
      }
      var response := hidDevice.Read(HidInputReportLengthStatus);
      if response.ReadRaised? {
        return None, true;
      }
      if response.data == [] || |response.data| < HidInputReportLengthStatus {
        lastHidRawReadData, lastHidParsedStatus := None, None;
        return;
      }
      lastHidRawReadData := Some(response.data);
      status := ParseStatus(response.data);
      lastRawBatteryStatusForLogging := Some(response.data[HidResStatusBatteryStatusByte]);
      lastHidParsedStatus := status;
    }

    /** `set_sidetone_level`: clamp to 0..128 and send. */
    method SetSidetoneLevel(level: int) returns (ok: bool)
      modifies this`hidDevice, this`devicePath, this`udevSetupDetails, bus`openAttempts, tempFiles`files
      modifies Held()`sent, Held()`isOpen
      ensures Wrote(HeadsetStatus.EncodeSetSidetone(level), ok, old(hidDevice),
        old(if hidDevice == null then [] else hidDevice.sent), old(devicePath),
        old(bus.openAttempts), old(tempFiles.files), old(udevSetupDetails))
      ensures old(hidDevice) == null && hidDevice != null ==> fresh(hidDevice)
      ensures old(Valid()) ==> Valid()
    {
      var clamped := Clamp(level, 0, 128);
      SidetoneAsEncoder(level);
      ok := SetSidetoneLevelHid(clamped);
    }

    /** `_set_sidetone_level_hid`: the bucketed level after the sidetone prefix. */
    method SetSidetoneLevelHid(level: int) returns (ok: bool)
      modifies this`hidDevice, this`devicePath, this`udevSetupDetails, bus`openAttempts, tempFiles`files
      modifies Held()`sent, Held()`isOpen
      ensures Wrote(SidetonePayload(level), ok, old(hidDevice),
        old(if hidDevice == null then [] else hidDevice.sent), old(devicePath),
        old(bus.openAttempts), old(tempFiles.files), old(udevSetupDetails))
      ensures old(hidDevice) == null && hidDevice != null ==> fresh(hidDevice)
      ensures old(Valid()) ==> Valid()
    {
      var mappedValue: byte := 0;
      if level < 26 {
        mappedValue := 0x00;
      } else if level < 51 {
        mappedValue := 0x01;
      } else if level < 76 {
        mappedValue := 0x02;
      } else {
        mappedValue := 0x03;
      }
      var commandPayload := HidCmdSetSidetonePrefix;
      commandPayload := commandPayload + [mappedValue];
      var connected;
      ok, connected := SendCommand(commandPayload);
    }

    /** `set_inactive_timeout`: clamp to 0..90 and send. */
    method SetInactiveTimeout(minutes: int) returns (ok: bool)
      modifies this`hidDevice, this`devicePath, this`udevSetupDetails, bus`openAttempts, tempFiles`files
      modifies Held()`sent, Held()`isOpen
      ensures Wrote(HeadsetStatus.EncodeSetInactiveTimeout(minutes), ok, old(hidDevice),
        old(if hidDevice == null then [] else hidDevice.sent), old(devicePath),
        old(bus.openAttempts), old(tempFiles.files), old(udevSetupDetails))
      ensures old(hidDevice) == null && hidDevice != null ==> fresh(hidDevice)
      ensures old(Valid()) ==> Valid()
    {
      var clampedMinutes := Clamp(minutes, 0, 90);
      InactiveTimeoutAsEncoder(minutes);
      ok := SetInactiveTimeoutHid(clampedMinutes as byte);
    }

    /** `_set_inactive_timeout_hid`: the minutes after the prefix; a value outside 0..90
        is only warned about and sent as it is. */
    method SetInactiveTimeoutHid(minutes: byte) returns (ok: bool)
      modifies this`hidDevice, this`devicePath, this`udevSetupDetails, bus`openAttempts, tempFiles`files
      modifies Held()`sent, Held()`isOpen
      ensures Wrote(InactiveTimeoutPayload(minutes), ok, old(hidDevice),
        old(if hidDevice == null then [] else hidDevice.sent), old(devicePath),
        old(bus.openAttempts), old(tempFiles.files), old(udevSetupDetails))
      ensures old(hidDevice) == null && hidDevice != null ==> fresh(hidDevice)
      ensures old(Valid()) ==> Valid()
    {
      var commandPayload := HidCmdSetInactiveTimePrefix;
      commandPayload := commandPayload + [minutes];
      var connected;
      ok, connected := SendCommand(commandPayload);
    }

    /** `_set_eq_values_hid` (and `set_eq_values`, which only forwards): after connecting,
        a curve of other than ten bands is refused without a write; otherwise the band
        bytes are appended one by one after the prefix, then the slot byte 0x00, and the
        result is the maintained encoder's command. */
    method SetEqValuesHid(values: seq<real>) returns (ok: bool)
      modifies this`hidDevice, this`devicePath, this`udevSetupDetails, bus`openAttempts, tempFiles`files
      modifies Held()`sent, Held()`isOpen
      ensures |values| != 10 ==> !ok
      ensures |values| != 10 && old(hidDevice) != null ==>
        hidDevice == old(hidDevice) && hidDevice.sent == old(hidDevice.sent) && bus.openAttempts == old(bus.openAttempts)
      ensures |values| != 10 && old(hidDevice) == null ==>
        ConnectedFromNothing(hidDevice != null, old(bus.openAttempts), old(tempFiles.files), old(udevSetupDetails))
      ensures |values| == 10 ==>
        Wrote(HeadsetStatus.EncodeSetEqValues(values).value, ok, old(hidDevice),
          old(if hidDevice == null then [] else hidDevice.sent), old(devicePath),
          old(bus.openAttempts), old(tempFiles.files), old(udevSetupDetails))
      ensures old(hidDevice) == null && hidDevice != null ==> fresh(hidDevice)
      ensures old(Valid()) ==> Valid()
    {
      if |values| != 10 {
        // The connection is attempted before the band count is checked.
        var _ := EnsureHidConnection();
        return false;
      }
      // The payload depends on the values alone, so it is built here rather than after
      // the connection check; nothing observable moves.
      var commandPayload := EqBandsPayload(values);
      var connected;
      ok, connected := SendCommand(commandPayload);
    }
  }

  /** `HeadsetService()`: the fields cleared, then one connection attempt. */
  method NewLegacyHeadsetService(bus: Bus, tempFiles: TempFiles) returns (service: LegacyHeadsetService)
    modifies bus`openAttempts, tempFiles`files
    ensures fresh(service) && service.bus == bus && service.tempFiles == tempFiles
    ensures service.ConnectedFromNothing(service.hidDevice != null, old(bus.openAttempts), old(tempFiles.files), None)
    ensures service.lastHidRawReadData.None? && service.lastHidParsedStatus.None?
    ensures service.Valid()
  {
    service := new LegacyHeadsetService(bus, tempFiles);
    var _ := service.ConnectHidDevice();
  }
}
