/** `src/headsetcontrol_tray/headset_service.py`: `HeadsetService`, the dispatcher the UI
    talks to. It keeps a `HIDCommunicator` bound to the connection manager's open handle,
    sends encoded commands through it, asks for and parses the status report, and caches
    what it last read and reported. Any failed write drops the connection. */
module Service {
  import opened Prelude
  import opened AppConfig
  import opened HidApi
  import opened HidManager
  import opened HidCommunicator
  import opened HeadsetStatus
  import opened UdevManager
  import opened OsApi
  import Utf8

  /** The dictionary `_ensure_hid_communicator` hands the communicator when the manager
      holds a handle but no device dictionary. The communicator reads only the path and
      the product string; the ids are not part of that dictionary and are given as 0. */
  function PlaceholderInfo(): (info: DeviceInfo)
    ensures info.path.Some? && Utf8.IsAscii(info.path.value)
    ensures ProductDescription(info) == "unknown_product_service"
  {
    DeviceInfo(0, 0, Some(Utf8.AsciiBytes("unknown_path_service")), None, None, None, Some("unknown_product_service"))
  }

  /** The communicator describes the stand-in as "unknown_path_service" and
      "unknown_product_service". */
  lemma PlaceholderDescriptions()
    ensures PathDescription(PlaceholderInfo()) == "unknown_path_service"
    ensures ProductDescription(PlaceholderInfo()) == "unknown_product_service"
  {
    Utf8.DecodeAsciiBytes("unknown_path_service");
  }

  /** The dictionary the communicator is built from. */
  function CommunicatorInfo(selected: Option<DeviceInfo>): (info: DeviceInfo)
    ensures selected.Some? ==> info == selected.value
    ensures selected.None? ==> info == PlaceholderInfo()
  {
    selected.GetOr(PlaceholderInfo())
  }

  /** `os.path.join("/etc/udev/rules.d/", UDEV_RULE_FILENAME)`: the rules path the service
      checks before guiding the user. */
  function ServiceRulesPath(): (path: string)
    ensures path == FinalRulesPath()
  {
    "/etc/udev/rules.d/" + UdevRuleFilename
  }

  /** What `read_report(HID_INPUT_REPORT_LENGTH_STATUS)` delivers for a device that
      answers a read with `outcome`: the first eight bytes, if there are that many. */
  function StatusResponse(outcome: ReadOutcome): (r: Option<seq<byte>>)
    ensures r.Some? <==> outcome.Received? && |outcome.data| >= HidInputReportLengthStatus
    ensures r.Some? ==> r.value == outcome.data[..HidInputReportLengthStatus] && |r.value| == HidInputReportLengthStatus
  {
    if outcome.Received? && |outcome.data| >= HidInputReportLengthStatus then
      Some(outcome.data[..HidInputReportLengthStatus])
    else None
  }

  /** `_last_raw_battery_status_for_logging` after a parsed report: 0x01 charging, 0x02
      online and not charging, 0x00 offline. */
  function LoggedStatus(s: StatusReport): (code: int)
    ensures code == 0x01 <==> s.headsetOnline && s.batteryCharging == Some(true)
    ensures code == 0x02 <==> s.headsetOnline && s.batteryCharging != Some(true)
    ensures code == 0x00 <==> !s.headsetOnline
  {
    if s.headsetOnline then (if s.batteryCharging.GetOr(false) then 0x01 else 0x02) else 0x00
  }

  /** The logging code of a parsed report follows its raw status byte: 0x00 stays 0x00,
      0x01 stays 0x01, and every other value becomes 0x02. */
  lemma LoggedStatusFollowsStatusByte(data: seq<byte>)
    requires |data| >= HidInputReportLengthStatus
    ensures ParseStatusReport(data).Some?
    ensures var code := LoggedStatus(ParseStatusReport(data).value);
      (data[HidResStatusBatteryStatusByte] == 0x00 ==> code == 0x00) &&
      (data[HidResStatusBatteryStatusByte] == 0x01 ==> code == 0x01) &&
      (data[HidResStatusBatteryStatusByte] > 0x01 ==> code == 0x02)
  {
  }

  /** The field a getter reports from a status: present only while the headset is
      online. */
  function ReportedBattery(status: Option<StatusReport>): (level: Option<int>)
    ensures level.Some? <==> status.Some? && status.value.headsetOnline && status.value.batteryPercent.Some?
    ensures level.Some? ==> level == status.value.batteryPercent
  {
    if status.Some? && status.value.headsetOnline then status.value.batteryPercent else None
  }

  function ReportedChatmix(status: Option<StatusReport>): (chatmix: Option<int>)
    ensures chatmix.Some? <==> status.Some? && status.value.headsetOnline && status.value.chatmix.Some?
    ensures chatmix.Some? ==> chatmix == status.value.chatmix
  {
    if status.Some? && status.value.headsetOnline then status.value.chatmix else None
  }

  function ReportedCharging(status: Option<StatusReport>): (charging: Option<bool>)
    ensures charging.Some? <==> status.Some? && status.value.headsetOnline && status.value.batteryCharging.Some?
    ensures charging.Some? ==> charging == status.value.batteryCharging
  {
    if status.Some? && status.value.headsetOnline then status.value.batteryCharging else None
  }

  /** What a getter reports from a status the service parsed itself: a battery level is
      a multiple of 25 up to 100, a ChatMix value lies in 0..128, and charging is
      reported exactly when the status byte was 0x01. */
  lemma ReportedFieldsInRange(data: seq<byte>)
    requires |data| >= HidInputReportLengthStatus
    ensures var status := ParseStatusReport(data);
      (ReportedBattery(status).Some? ==> ReportedBattery(status).value in {0, 25, 50, 75, 100}) &&
      (ReportedChatmix(status).Some? ==> 0 <= ReportedChatmix(status).value <= 128) &&
      (ReportedCharging(status) == Some(true) <==> data[HidResStatusBatteryStatusByte] == 0x01) &&
      (ReportedBattery(status).None? <==> data[HidResStatusBatteryStatusByte] == 0x00 || data[HidResStatusBatteryLevelByte] > 4)
  {
  }

  class HeadsetService {
    const manager: HidConnectionManager
    const udevManager: UdevRulesManager
    /** Environment: the file system the rules check looks at. */
    const fs: FileSystem
    var communicator: Communicator?
    var udevSetupDetails: Option<SetupDetails>
    var lastHidRawReadData: Option<seq<byte>>
    var lastHidParsedStatus: Option<StatusReport>
    var lastReportedBatteryLevel: Option<int>
    var lastReportedChatmix: Option<int>
    var lastReportedChargingStatus: Option<bool>
    var lastRawBatteryStatusForLogging: Option<int>

    /** The condition at the top of `_ensure_hid_communicator`: the communicator wraps
        the handle the manager holds. */
    predicate Attached()
      reads this, manager, communicator
    {
      communicator != null && manager.hidDevice != null && communicator.hidDevice == manager.hidDevice
    }

    /** Every method keeps the communicator, when there is one, on the manager's handle. */
    ghost predicate Coupled()
      reads this, manager, communicator
    {
      communicator != null ==> communicator.hidDevice == manager.hidDevice
    }

    /** Nothing has been read or reported yet. */
    predicate CachesEmpty()
      reads this`lastHidRawReadData, this`lastHidParsedStatus, this`lastReportedBatteryLevel,
        this`lastReportedChatmix, this`lastReportedChargingStatus, this`lastRawBatteryStatusForLogging
    {
      lastHidRawReadData.None? && lastHidParsedStatus.None? && lastReportedBatteryLevel.None? &&
      lastReportedChatmix.None? && lastReportedChargingStatus.None? && lastRawBatteryStatusForLogging.None?
    }

    /** The field initialisation of `HeadsetService()`: fresh managers, no
        communicator, empty caches. `NewHeadsetService` adds the first attach. */
    constructor (bus: Bus, tempFiles: TempFiles, fs: FileSystem)
      ensures manager.bus == bus && udevManager.tempFiles == tempFiles && this.fs == fs
      ensures fresh(manager) && fresh(udevManager)
      ensures manager.hidDevice == null && manager.selectedDeviceInfo.None?
      ensures udevManager.lastUdevSetupDetails.None?
      ensures communicator == null && udevSetupDetails.None?
      ensures CachesEmpty()
    {
      manager := new HidConnectionManager(bus);
      udevManager := new UdevRulesManager(tempFiles);
      this.fs := fs;
      communicator := null;
      udevSetupDetails := None;
      lastHidRawReadData := None;
      lastHidParsedStatus := None;
      lastReportedBatteryLevel := None;
      lastReportedChatmix := None;
      lastReportedChargingStatus := None;
      lastRawBatteryStatusForLogging := None;
    }

    /** `_ensure_hid_communicator`: nothing to do while attached; otherwise make the
        manager connect and bind a communicator to its handle (a new one unless the
        current one already wraps it). When connecting fails the communicator is dropped
        and, if the rules file is missing, the rules are prepared and their details kept
        when that succeeds. */
    method EnsureHidCommunicator() returns (ok: bool)
      modifies this`communicator, this`udevSetupDetails
      modifies manager`hidDevice, manager`selectedDeviceInfo, manager.bus`openAttempts
      modifies udevManager`lastUdevSetupDetails, udevManager.tempFiles`files
      ensures ok <==> communicator != null
      ensures ok ==> Attached()
      ensures !ok ==> manager.hidDevice == null
      ensures manager.hidDevice == old(manager.hidDevice) || manager.hidDevice == null || fresh(manager.hidDevice)
      ensures old(Attached()) ==>
        ok && communicator == old(communicator) && manager.hidDevice == old(manager.hidDevice) &&
        manager.selectedDeviceInfo == old(manager.selectedDeviceInfo) &&
        manager.bus.openAttempts == old(manager.bus.openAttempts)
      ensures !old(Attached()) && old(manager.hidDevice) == null ==>
        manager.selectedDeviceInfo == ConnectChoice(manager.bus.present, manager.bus.openable) &&
        manager.bus.openAttempts == old(manager.bus.openAttempts) + ConnectAttempts(manager.bus.present, manager.bus.openable)
      ensures !old(Attached()) && old(manager.hidDevice) != null ==>
        manager.hidDevice == old(manager.hidDevice) && manager.selectedDeviceInfo == old(manager.selectedDeviceInfo) &&
        manager.bus.openAttempts == old(manager.bus.openAttempts)
      ensures ok && communicator != old(communicator) ==>
        fresh(communicator) &&
        communicator.devicePathStr == PathDescription(CommunicatorInfo(manager.selectedDeviceInfo)) &&
        communicator.deviceProductStr == ProductDescription(CommunicatorInfo(manager.selectedDeviceInfo))
      ensures ok || ServiceRulesPath() in fs.existing ==>
        udevSetupDetails == old(udevSetupDetails) &&
        udevManager.lastUdevSetupDetails == old(udevManager.lastUdevSetupDetails) &&
        udevManager.tempFiles.files == old(udevManager.tempFiles.files)
      ensures !ok && ServiceRulesPath() !in fs.existing ==>
        (udevManager.tempFiles.failing ==>
          udevManager.lastUdevSetupDetails.None? && udevSetupDetails == old(udevSetupDetails)) &&
        (!udevManager.tempFiles.failing ==>
          udevManager.lastUdevSetupDetails == Some(DetailsFor(udevManager.tempFiles.NextName(TempPrefix, TempSuffix))) &&
          udevSetupDetails == udevManager.lastUdevSetupDetails)
      ensures old(manager.Valid()) ==> manager.Valid()
    {
      if communicator != null && manager.hidDevice != null && communicator.hidDevice == manager.hidDevice {
        return true;
      }
      var connected := manager.EnsureConnection();
      if connected {
        BindCommunicator();
        return true;
      }
      communicator := null;
      PrepareMissingRules();
      return false;
    }

    /** The success path of `_ensure_hid_communicator`: bind a communicator to the
        manager's handle, a new one unless the current one already wraps it. */
    method BindCommunicator()
      requires manager.hidDevice != null
      modifies this`communicator
      ensures Attached()
      ensures old(communicator) != null && old(communicator).hidDevice == manager.hidDevice ==>
        communicator == old(communicator)
      ensures communicator != old(communicator) ==>
        fresh(communicator) &&
        communicator.devicePathStr == PathDescription(CommunicatorInfo(manager.selectedDeviceInfo)) &&
        communicator.deviceProductStr == ProductDescription(CommunicatorInfo(manager.selectedDeviceInfo))
    {
      var active := manager.GetHidDevice();
      var info := manager.GetSelectedDeviceInfo();
      var infoForCommunicator := CommunicatorInfo(info);
      if communicator == null || communicator.hidDevice != active {
        communicator := new Communicator(active, infoForCommunicator);
      }
    }

    /** The first attach of `HeadsetService()`: with no handle yet, the manager tries
        every ranked candidate once. */
    method FirstAttach(ghost bus: Bus)
      requires communicator == null && manager.hidDevice == null && manager.bus == bus
      modifies this`communicator, this`udevSetupDetails
      modifies manager`hidDevice, manager`selectedDeviceInfo, bus`openAttempts
      modifies udevManager`lastUdevSetupDetails, udevManager.tempFiles`files
      ensures bus.openAttempts == old(bus.openAttempts) + ConnectAttempts(bus.present, bus.openable)
      ensures manager.selectedDeviceInfo == ConnectChoice(bus.present, bus.openable)
      ensures communicator != null <==> manager.hidDevice != null
      ensures Coupled()
      ensures old(manager.Valid()) ==> manager.Valid()
    {
      var ok := EnsureHidCommunicator();
      assert ok ==> Attached();
      assert !ok ==> communicator == null && manager.hidDevice == null;
    }

    /** The failure path of `_ensure_hid_communicator`: when the rules file is missing,
        prepare the rules and keep their details if that succeeded. */
    method PrepareMissingRules()
      modifies this`udevSetupDetails, udevManager`lastUdevSetupDetails, udevManager.tempFiles`files
      ensures ServiceRulesPath() in fs.existing ==>
        udevSetupDetails == old(udevSetupDetails) &&
        udevManager.lastUdevSetupDetails == old(udevManager.lastUdevSetupDetails) &&
        udevManager.tempFiles.files == old(udevManager.tempFiles.files)
      ensures ServiceRulesPath() !in fs.existing ==>
        (udevManager.tempFiles.failing ==>
          udevManager.lastUdevSetupDetails.None? && udevSetupDetails == old(udevSetupDetails)) &&
        (!udevManager.tempFiles.failing ==>
          udevManager.lastUdevSetupDetails == Some(DetailsFor(udevManager.tempFiles.NextName(TempPrefix, TempSuffix))) &&
          udevSetupDetails == udevManager.lastUdevSetupDetails)
    {
      if !fs.Exists(ServiceRulesPath()) {
        var created := udevManager.CreateRulesInteractive();
        if created {
          udevSetupDetails := udevManager.GetLastUdevSetupDetails();
        }
      }
    }

    /** `close`: the manager closes its handle and the communicator is dropped. */
    method Close()
      modifies this`communicator, manager`hidDevice, manager`selectedDeviceInfo, manager.Held()`isOpen
      ensures communicator == null && manager.hidDevice == null
      ensures old(manager.hidDevice) != null ==> !old(manager.hidDevice).isOpen && manager.selectedDeviceInfo.None?
      ensures old(manager.Valid()) ==> manager.Valid()
    {
      manager.Close();
      communicator := null;
    }

    /** The exchange of `_get_parsed_status_hid` once attached: send the status request,
        read eight bytes and parse them. A failed write drops the connection and both
        caches; a failed read drops both caches; otherwise the raw bytes, the parsed
        status and the logging code are stored. */
    method QueryStatus() returns (status: Option<StatusReport>)
      requires communicator != null && communicator.hidDevice == manager.hidDevice
      modifies this`communicator, this`lastHidRawReadData, this`lastHidParsedStatus, this`lastRawBatteryStatusForLogging
      modifies manager`hidDevice, manager`selectedDeviceInfo, communicator.hidDevice`isOpen, communicator.hidDevice`sent
      ensures old(communicator).hidDevice.sent == old(communicator.hidDevice.sent) + [HidCmdGetStatus]
      ensures status == lastHidParsedStatus
      ensures !WriteSucceeded(old(communicator.hidDevice.behaviour.write)) ==>
        status.None? && lastHidRawReadData.None? && communicator == null && manager.hidDevice == null &&
        !old(communicator).hidDevice.isOpen &&
        lastRawBatteryStatusForLogging == old(lastRawBatteryStatusForLogging)
      ensures WriteSucceeded(old(communicator.hidDevice.behaviour.write)) ==>
        communicator == old(communicator) && manager.hidDevice == old(manager.hidDevice) &&
        manager.selectedDeviceInfo == old(manager.selectedDeviceInfo)
      ensures (WriteSucceeded(old(communicator.hidDevice.behaviour.write)) &&
        StatusResponse(old(communicator.hidDevice.behaviour.read)).None?) ==>
        status.None? && lastHidRawReadData.None? &&
        lastRawBatteryStatusForLogging == old(lastRawBatteryStatusForLogging)
      ensures (WriteSucceeded(old(communicator.hidDevice.behaviour.write)) &&
        StatusResponse(old(communicator.hidDevice.behaviour.read)).Some?) ==>
        lastHidRawReadData == StatusResponse(old(communicator.hidDevice.behaviour.read)) &&
        status == ParseStatusReport(lastHidRawReadData.value) && status.Some? &&
        lastRawBatteryStatusForLogging == Some(LoggedStatus(status.value))
      ensures old(manager.Valid()) ==> manager.Valid()
    {
      var c := communicator;
      var written := c.WriteReport(0, HidCmdGetStatus);
      if !written {
        manager.Close();
        communicator := null;
        lastHidRawReadData := None;
        lastHidParsedStatus := None;
        return None;
      }
      var response := c.ReadReport(HidInputReportLengthStatus);
      if response.None? || response.value == [] {
        lastHidRawReadData := None;
        lastHidParsedStatus := None;
        return None;
      }
      lastHidRawReadData := response;
      var parsed := ParseStatusReport(response.value);
      // eight bytes always parse, so the parse-failure branch is never taken
      assert parsed.Some?;
      lastRawBatteryStatusForLogging := Some(LoggedStatus(parsed.value));
      lastHidParsedStatus := parsed;
      return parsed;
    }

    /** `_get_parsed_status_hid`: attach if need be, then query. Whatever happens, the
        result is what the parsed-status cache holds afterwards; a status comes from the
        eight bytes the attached device answered the status request with. */
    method GetParsedStatusHid() returns (status: Option<StatusReport>)
      modifies this`communicator, this`udevSetupDetails, this`lastHidRawReadData, this`lastHidParsedStatus
      modifies this`lastRawBatteryStatusForLogging
      modifies manager`hidDevice, manager`selectedDeviceInfo, manager.bus`openAttempts,
        manager.Held()`isOpen, manager.Held()`sent
      modifies udevManager`lastUdevSetupDetails, udevManager.tempFiles`files
      ensures status == lastHidParsedStatus
      ensures status.None? ==> lastHidRawReadData.None?
      ensures status.Some? ==>
        Attached() && lastHidRawReadData.Some? &&
        lastHidRawReadData == StatusResponse(communicator.hidDevice.behaviour.read) &&
        status == ParseStatusReport(lastHidRawReadData.value) &&
        communicator.hidDevice.sent != [] && communicator.hidDevice.sent[|communicator.hidDevice.sent| - 1] == HidCmdGetStatus &&
        lastRawBatteryStatusForLogging == Some(LoggedStatus(status.value))
      ensures old(Coupled()) ==> Coupled()
      ensures old(manager.Valid()) ==> manager.Valid()
    {
      var attached := EnsureHidCommunicator();
      if !attached || communicator == null {
        lastHidRawReadData := None;
        lastHidParsedStatus := None;
        return None;
      }
      status := QueryStatus();
    }

    /** `is_device_connected`: attach if need be; without a communicator the answer is
        false, nothing is sent and the caches keep their values (`queried` records
        whether the attach left a communicator to query); otherwise it is whether the
        status query parsed and reports online. */
    method IsDeviceConnected() returns (connected: bool, ghost queried: bool)
      modifies this`communicator, this`udevSetupDetails, this`lastHidRawReadData, this`lastHidParsedStatus
      modifies this`lastRawBatteryStatusForLogging
      modifies manager`hidDevice, manager`selectedDeviceInfo, manager.bus`openAttempts,
        manager.Held()`isOpen, manager.Held()`sent
      modifies udevManager`lastUdevSetupDetails, udevManager.tempFiles`files
      ensures connected <==> communicator != null && lastHidParsedStatus.Some? && lastHidParsedStatus.value.headsetOnline
      ensures connected ==> (lastHidRawReadData.Some? && |lastHidRawReadData.value| == HidInputReportLengthStatus &&
        lastHidRawReadData.value[HidResStatusBatteryStatusByte] != 0)
      ensures old(Attached()) ==> queried
      ensures old(manager.Valid()) ==>
        (queried <==> old(manager.hidDevice) != null || ConnectChoice(manager.bus.present, manager.bus.openable).Some?)
      ensures !queried ==>
        !connected && communicator == null && manager.hidDevice == null &&
        lastHidRawReadData == old(lastHidRawReadData) && lastHidParsedStatus == old(lastHidParsedStatus) &&
        lastRawBatteryStatusForLogging == old(lastRawBatteryStatusForLogging) &&
        (old(manager.hidDevice) != null ==> old(manager.hidDevice).sent == old(manager.hidDevice.sent))
      ensures old(Coupled()) ==> Coupled()
      ensures old(manager.Valid()) ==> manager.Valid()
    {
      queried := EnsureHidCommunicator();
      if communicator == null {
        assert manager.hidDevice == null;
        return false, false;
      }
      assert Attached();
      var status := GetParsedStatusHid();
      connected := status.Some? && status.value.headsetOnline;
    }

    /** `get_battery_level`: the level of an online status (a multiple of 25 up to 100),
        else None; the last reported level follows the answer. */
    method GetBatteryLevel() returns (level: Option<int>)
      modifies this`communicator, this`udevSetupDetails, this`lastHidRawReadData, this`lastHidParsedStatus
      modifies this`lastRawBatteryStatusForLogging, this`lastReportedBatteryLevel
      modifies manager`hidDevice, manager`selectedDeviceInfo, manager.bus`openAttempts,
        manager.Held()`isOpen, manager.Held()`sent
      modifies udevManager`lastUdevSetupDetails, udevManager.tempFiles`files
      ensures level == ReportedBattery(lastHidParsedStatus)
      ensures lastReportedBatteryLevel == level
      ensures level.Some? ==> level.value in {0, 25, 50, 75, 100}
      ensures old(Coupled()) ==> Coupled()
    {
      var status := GetParsedStatusHid();
      if status.Some? {
        ReportedFieldsInRange(lastHidRawReadData.value);
      }
      if status.Some? && status.value.headsetOnline && status.value.batteryPercent.Some? {
        lastReportedBatteryLevel := status.value.batteryPercent;
        return status.value.batteryPercent;
      }
      lastReportedBatteryLevel := None;
      return None;
    }

    /** `get_chatmix_value`: the ChatMix value (0..128) of an online status, else None. */
    method GetChatmixValue() returns (chatmix: Option<int>)
      modifies this`communicator, this`udevSetupDetails, this`lastHidRawReadData, this`lastHidParsedStatus
      modifies this`lastRawBatteryStatusForLogging, this`lastReportedChatmix
      modifies manager`hidDevice, manager`selectedDeviceInfo, manager.bus`openAttempts,
        manager.Held()`isOpen, manager.Held()`sent
      modifies udevManager`lastUdevSetupDetails, udevManager.tempFiles`files
      ensures chatmix == ReportedChatmix(lastHidParsedStatus)
      ensures lastReportedChatmix == chatmix
      ensures chatmix.Some? ==> 0 <= chatmix.value <= 128
      ensures old(Coupled()) ==> Coupled()
    {
      var status := GetParsedStatusHid();
      if status.Some? {
        ReportedFieldsInRange(lastHidRawReadData.value);
      }
      if status.Some? && status.value.headsetOnline && status.value.chatmix.Some? {
        lastReportedChatmix := status.value.chatmix;
        return status.value.chatmix;
      }
      lastReportedChatmix := None;
      return None;
    }

    /** `is_charging`: whether an online headset charges (status byte 0x01), else None. */
    method IsCharging() returns (charging: Option<bool>)
      modifies this`communicator, this`udevSetupDetails, this`lastHidRawReadData, this`lastHidParsedStatus
      modifies this`lastRawBatteryStatusForLogging, this`lastReportedChargingStatus
      modifies manager`hidDevice, manager`selectedDeviceInfo, manager.bus`openAttempts,
        manager.Held()`isOpen, manager.Held()`sent
      modifies udevManager`lastUdevSetupDetails, udevManager.tempFiles`files
      ensures charging == ReportedCharging(lastHidParsedStatus)
      ensures lastReportedChargingStatus == charging
      ensures charging == Some(true) <==>
        lastHidRawReadData.Some? && |lastHidRawReadData.value| == HidInputReportLengthStatus &&
        lastHidRawReadData.value[HidResStatusBatteryStatusByte] == 0x01
      ensures old(Coupled()) ==> Coupled()
    {
      var status := GetParsedStatusHid();
      if status.Some? {
        ReportedFieldsInRange(lastHidRawReadData.value);
      }
      if status.Some? && status.value.headsetOnline && status.value.batteryCharging.Some? {
        lastReportedChargingStatus := status.value.batteryCharging;
        return status.value.batteryCharging;
      }
      lastReportedChargingStatus := None;
      return None;
    }

    /** `_generic_set_command`: attach if need be; send the payload, if there is one, as
        report `reportId`; a failed write drops the connection. */
    method GenericSetCommand(payload: Option<seq<byte>>, reportId: int) returns (ok: bool)
      requires reportId < 256
      modifies this`communicator, this`udevSetupDetails
      modifies manager`hidDevice, manager`selectedDeviceInfo, manager.bus`openAttempts,
        manager.Held()`isOpen, manager.Held()`sent
      modifies udevManager`lastUdevSetupDetails, udevManager.tempFiles`files
      ensures ok ==>
        payload.Some? && Attached() && communicator.hidDevice.sent != [] &&
        communicator.hidDevice.sent[|communicator.hidDevice.sent| - 1] == Frame(reportId, payload.value) &&
        WriteSucceeded(communicator.hidDevice.behaviour.write)
      ensures payload.Some? ==> (ok <==> communicator != null)
      ensures !ok ==> manager.hidDevice == null || payload.None?
      ensures payload.None? ==> !ok
      ensures payload.None? && old(manager.hidDevice) != null ==>
        old(manager.hidDevice).sent == old(manager.hidDevice.sent)
      ensures old(Coupled()) ==> Coupled()
      ensures old(manager.Valid()) ==> manager.Valid()
    {
      var attached := EnsureHidCommunicator();
      if !attached || communicator == null {
        return false;
      }
      if payload.None? {
        return false;
      }
      var c := communicator;
      ok := c.WriteReport(reportId, payload.value);
      if !ok {
        manager.Close();
        communicator := null;
      }
    }

    /** `set_sidetone_level`: the level clamped to 0..128, then encoded. */
    method SetSidetoneLevel(level: int) returns (ok: bool)
      modifies this`communicator, this`udevSetupDetails
      modifies manager`hidDevice, manager`selectedDeviceInfo, manager.bus`openAttempts,
        manager.Held()`isOpen, manager.Held()`sent
      modifies udevManager`lastUdevSetupDetails, udevManager.tempFiles`files
      ensures ok ==> (Attached() && communicator.hidDevice.sent != [] &&
        DecodeCommand(communicator.hidDevice.sent[|communicator.hidDevice.sent| - 1]) ==
          Some(SetSidetone(SidetoneStep(Clamp(level, 0, 128)))))
      ensures ok <==> communicator != null
      ensures old(Coupled()) ==> Coupled()
    {
      ok := GenericSetCommand(Some(EncodeSetSidetone(Clamp(level, 0, 128))), 0);
    }

    /** `set_inactive_timeout`: the minutes clamped to 0..90, then encoded. */
    method SetInactiveTimeout(minutes: int) returns (ok: bool)
      modifies this`communicator, this`udevSetupDetails
      modifies manager`hidDevice, manager`selectedDeviceInfo, manager.bus`openAttempts,
        manager.Held()`isOpen, manager.Held()`sent
      modifies udevManager`lastUdevSetupDetails, udevManager.tempFiles`files
      ensures ok ==> (Attached() && communicator.hidDevice.sent != [] &&
        DecodeCommand(communicator.hidDevice.sent[|communicator.hidDevice.sent| - 1]) ==
          Some(SetInactiveTime(Clamp(minutes, 0, 90))))
      ensures ok <==> communicator != null
      ensures old(Coupled()) ==> Coupled()
    {
      ok := GenericSetCommand(Some(EncodeSetInactiveTimeout(Clamp(minutes, 0, 90))), 0);
    }

    /** `set_eq_values`: ten band values are encoded and sent; any other count sends
        nothing and fails. */
    method SetEqValues(values: seq<real>) returns (ok: bool)
      modifies this`communicator, this`udevSetupDetails
      modifies manager`hidDevice, manager`selectedDeviceInfo, manager.bus`openAttempts,
        manager.Held()`isOpen, manager.Held()`sent
      modifies udevManager`lastUdevSetupDetails, udevManager.tempFiles`files
      ensures ok ==> (|values| == 10 && Attached() && communicator.hidDevice.sent != [] &&
        DecodeCommand(communicator.hidDevice.sent[|communicator.hidDevice.sent| - 1]) ==
          Some(SetEqBands(EqBands(values), 0x00)))
      ensures |values| != 10 ==> !ok
      ensures |values| == 10 ==> (ok <==> communicator != null)
      ensures old(Coupled()) ==> Coupled()
    {
      ok := GenericSetCommand(EncodeSetEqValues(values), 0);
    }

    /** `set_eq_preset_id`: one of the four shipped presets is encoded and sent; any
        other id sends nothing and fails. */
    method SetEqPresetId(presetId: int) returns (ok: bool)
      modifies this`communicator, this`udevSetupDetails
      modifies manager`hidDevice, manager`selectedDeviceInfo, manager.bus`openAttempts,
        manager.Held()`isOpen, manager.Held()`sent
      modifies udevManager`lastUdevSetupDetails, udevManager.tempFiles`files
      ensures ok ==> (0 <= presetId <= 3 && Attached() && communicator.hidDevice.sent != [] &&
        communicator.hidDevice.sent[|communicator.hidDevice.sent| - 1] == EncodeSetEqPresetId(HwPresets, presetId).value)
      ensures !(0 <= presetId <= 3) ==> !ok
      ensures 0 <= presetId <= 3 ==> (ok <==> communicator != null)
      ensures old(Coupled()) ==> Coupled()
    {
      ShippedPresetsEncode(presetId);
      ok := GenericSetCommand(EncodeSetEqPresetId(HwPresets, presetId), 0);
    }

    /** `get_udev_setup_details`. */
    function GetUdevSetupDetails(): (details: Option<SetupDetails>)
      reads this
      ensures details == udevSetupDetails
    {
      udevSetupDetails
    }
  }

  /** `HeadsetService()`: set up the managers and caches, then try once to attach; the
      connection manager has tried every ranked candidate when it returns. */
  method NewHeadsetService(bus: Bus, tempFiles: TempFiles, fs: FileSystem) returns (service: HeadsetService)
    modifies bus`openAttempts, tempFiles`files
    ensures fresh(service) && fresh(service.manager) && fresh(service.udevManager)
    ensures service.manager.bus == bus && service.udevManager.tempFiles == tempFiles && service.fs == fs
    ensures service.CachesEmpty()
    ensures bus.openAttempts == old(bus.openAttempts) + ConnectAttempts(bus.present, bus.openable)
    ensures service.manager.selectedDeviceInfo == ConnectChoice(bus.present, bus.openable)
    ensures service.communicator != null <==> service.manager.hidDevice != null
    ensures service.Coupled() && service.manager.Valid()
  {
    service := new HeadsetService(bus, tempFiles, fs);
    service.FirstAttach(bus);
  }
}
