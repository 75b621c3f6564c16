# headsetcontrol_tray core, modelled in Dafny

headsetcontrol_tray is a Linux tray application for the SteelSeries Arctis Nova 7
wireless headsets. It talks to the headset only over HID:

- it finds the headset's vendor interfaces on the USB bus, ranks them and opens the best
  one;
- it sends short 3- and 13-byte output reports, unpadded, for sidetone, the inactive
  timeout, custom EQ curves and the hardware EQ presets;
- it asks for the 8-byte status report and decodes the battery bucket, the
  charging/offline byte and the ChatMix dials;
- when no interface opens, it prepares a udev rule file that gives the logged-in user
  access to the hidraw nodes;
- around this sit a settings and curve store, a poller that adapts its timer to how
  often the state changes, and a tooltip formatter.

This project models that core and proves what each part promises. There is one Dafny
module per source file:

| module | file | what it holds |
|---|---|---|
| `HeadsetStatus` | `headset_status.dfy` | the status parser and the command encoders, as functions |
| `HidManager` | `hid_manager.dfy` | the connection manager, as a class over the bus oracle |
| `HidCommunicator` | `hid_communicator.dfy` | report framing and the write/read checks |
| `Service` | `headset_service.dfy` | the dispatcher, as a class holding the manager, the communicator and the caches |
| `UdevManager` | `udev_manager.dfy` | the rule text, its path, and the temporary-file setup |
| `ConfigManager` | `config_manager.dfy` | the settings map and the insertion-ordered curve table |
| `PollingService` | `polling_service.dfy` | the adaptive polling state machine, as functions and as a class |
| `TrayTooltip` | `tray_tooltip.dfy` | the tooltip text, as functions |
| `LegacyService` | `legacy_service.dfy` | the older monolithic service in `headsetcontrol_tray/`, with lemmas tying it to the maintained code |

The supporting modules carry no source logic of their own:

- `Prelude`: Option, `byte`, and the Python built-ins the code relies on. These are
  clamping, `int()` truncation, `round()` half to even, `str()`, `format(n, "04x")`,
  `join` and `split`.
- `AppConfig`: the constant tables of `src/headsetcontrol_tray/app_config.py`.
- `StableSort`: Python's stable `list.sort(key=...)` as a value, with its ordering,
  permutation and stability proved.
- `HidApi` and `OsApi`: the `hid` library, `os.path.exists` and `tempfile` as oracles.
  The environment is fixed in constant fields.
- `Utf8`: `bytes.decode("utf-8", "replace")` and, as its reference partner, UTF-8
  encoding. Well-formed sequences follow Table 3-7 of the Unicode Standard, and each
  maximal ill-formed subpart becomes one U+FFFD, as section 3.9 of the Unicode Standard
  recommends and CPython's decoder does.

Python exceptions become explicit outcomes: an `Option`, a `bool` result, or a `raised`
flag where the exception escapes to the caller.

## Model

| member | source | states |
|---|---|---|
| HeadsetStatus.HeadsetOnline | src/headsetcontrol_tray/headset_status.py:27-39 | online iff the report reaches byte 3 and byte 3 is not 0x00; a short report reads offline |
| HeadsetStatus.BatteryLevelPercent | src/headsetcontrol_tray/headset_status.py:60-77 | bytes 0..4 map to 25 per step (0,25,50,75,100); any other byte gives None, not an error |
| HeadsetStatus.BatteryInfo | src/headsetcontrol_tray/headset_status.py:41-89 | offline or too short gives (None, None); otherwise the bucketed level, and charging iff byte 3 is 0x01 |
| HeadsetStatus.ChatmixValue | src/headsetcontrol_tray/headset_status.py:108-131 | the ChatMix value always lies in 0..128 |
| HeadsetStatus.ChatmixInfo | src/headsetcontrol_tray/headset_status.py:91-131 | a value exactly when online and the report holds both dial bytes, and then the formula on bytes 4 and 5 |
| HeadsetStatus.ParseStatusReport | src/headsetcontrol_tray/headset_status.py:133-162 | None iff fewer than 8 bytes (empty included); otherwise the raw status byte is byte 3, online iff it is non-zero, all three fields None when offline, and the battery, charging and ChatMix decodings when online |
| HeadsetStatus.ChatmixClosedForm | src/headsetcontrol_tray/headset_status.py:117-127 | the float products truncate to integer division: 64 + chat·64/100 − game·64/100 with both dials clamped to 0..100 |
| HeadsetStatus.ChatmixClampIsIdentity | src/headsetcontrol_tray/headset_status.py:131 | the final clamp to 0..128 never changes the value |
| HeadsetStatus.ChatmixMirror | src/headsetcontrol_tray/headset_status.py:117-131 | swapping the dials mirrors the value about 64 |
| HeadsetStatus.ChatmixMonotone | src/headsetcontrol_tray/headset_status.py:117-131 | more game or less chat never raises the value |
| HeadsetStatus.ChatmixSaturates | src/headsetcontrol_tray/headset_status.py:117-118 | dial bytes above 100 read as 100 |
| HeadsetStatus.ChatmixPinnedCases | src/headsetcontrol_tray/headset_status.py:120-124 | (100,0)→0, (0,100)→128, (50,50)→64, (0,0)→64, (75,25)→32, (25,75)→96 |
| HeadsetStatus.ParseReadsOnlyStatusBytes | src/headsetcontrol_tray/headset_status.py:136-160 | two full reports that agree on bytes 2..5 parse alike |
| HeadsetStatus.ChargingImpliesOnline | src/headsetcontrol_tray/headset_status.py:79-84 | a charging report is online, has status byte 0x01 and carries a ChatMix value |
| HeadsetStatus.SidetoneStep | src/headsetcontrol_tray/headset_status.py:178-188 | the step counts how many of the cut-offs 26, 51, 76 the level reaches, so it is at most 3 |
| HeadsetStatus.SidetoneStepMonotone | src/headsetcontrol_tray/headset_status.py:178-188 | the sidetone step is monotone in the level |
| HeadsetStatus.EncodeSetSidetone | src/headsetcontrol_tray/headset_status.py:173-198 | three bytes, prefix [0x00,0x39]; the decoded command is the sidetone step of the level |
| HeadsetStatus.EncodeSetInactiveTimeout | src/headsetcontrol_tray/headset_status.py:200-213 | three bytes, prefix [0x00,0xa3], then the minutes clamped to 0..90 (100→90, −10→0) |
| HeadsetStatus.EqBandByte | src/headsetcontrol_tray/headset_status.py:226-230 | a band byte lies in 0x0A..0x1E and, for −10..10 dB, less 0x14 it is the whole decibels of the value (floor); it saturates outside |
| HeadsetStatus.EqBandClampIsIdentity | src/headsetcontrol_tray/headset_status.py:230 | the hardware clamp to 0x0A..0x1E never changes the byte |
| HeadsetStatus.EqBandByteMonotone | src/headsetcontrol_tray/headset_status.py:226-230 | the band byte is monotone in the value |
| HeadsetStatus.EqBands | src/headsetcontrol_tray/headset_status.py:226-231 | one band byte per value, in order |
| HeadsetStatus.EncodeSetEqValues | src/headsetcontrol_tray/headset_status.py:215-250 | Some iff ten values; then 13 bytes, prefix [0x00,0x33], band i at offset 2+i, 0x00 at offset 12, and it decodes to those bands; the length-check error branch cannot be taken |
| HeadsetStatus.EqWholeDecibelsRoundTrip | src/headsetcontrol_tray/headset_status.py:226-231 | whole-decibel curves in −10..10 come back exactly as band byte − 0x14 |
| HeadsetStatus.EncodeSetEqPresetId | src/headsetcontrol_tray/headset_status.py:252-296 | None for an unknown id, a non-list value or a band count other than 10; otherwise the custom-curve encoding of the preset's values |
| HeadsetStatus.ShippedPresetsEncode | src/headsetcontrol_tray/app_config.py:49-54 | the shipped preset table encodes exactly the ids 0..3 |
| HeadsetStatus.BassBoostPresetBytes | src/headsetcontrol_tray/headset_status.py:252-296 | preset 1 ("Bass Boost") encodes to [0x00,0x33,23,25,24,21,18,18,19,19,19,19,0x00]; the half decibels are dropped |
| HidManager.FilterTargetPids | src/headsetcontrol_tray/hid_manager.py:59-88 | keeps exactly the entries with a target PID, each with its multiplicity |
| HidManager.FilterTargetPidsKeepsOrder | src/headsetcontrol_tray/hid_manager.py:59-88 | the result is the target-PID subsequence, in enumeration order |
| HidManager.PotentialDevices | src/headsetcontrol_tray/hid_manager.py:46-57 | an enumeration error gives [] |
| HidManager.PotentialDevicesSpec | src/headsetcontrol_tray/hid_manager.py:30-88 | the candidates are exactly the present interfaces of vendor 0x1038 with a target PID |
| HidManager.SortKey | src/headsetcontrol_tray/hid_manager.py:106-163 | −3 exact command interface, −2 user PID on interface 0, −1 interface 3, 0 usage page 0xffc0, 1 otherwise, each as an iff; missing fields read as interface −1, usage page 0, usage 0 |
| HidManager.SortKeyAsShipped | src/headsetcontrol_tray/hid_manager.py:106-163 | with the configuration as shipped, the key raises exactly for user-PID entries that are not the exact command interface, and equals SortKey elsewhere |
| HidManager.SortHidDevicesAsShipped | src/headsetcontrol_tray/hid_manager.py:167-168 | the shipped ranking raises iff some candidate's key raises, and otherwise is the ranking of SortKey |
| HidManager.ShippedRankingRaisesOnUserHeadset | src/headsetcontrol_tray/hid_manager.py:132-135 | any candidate list holding the user's headset on interface 0 cannot be ranked as shipped, while SortKey ranks that entry −2 |
| HidManager.SortHidDevices | src/headsetcontrol_tray/hid_manager.py:167-181 | the result has the input's length; the input, a value, is unchanged |
| HidManager.SortHidDevicesSpec | src/headsetcontrol_tray/hid_manager.py:167-168 | the result is ordered non-decreasingly by key and is a permutation of the input |
| HidManager.SortHidDevicesStable | src/headsetcontrol_tray/hid_manager.py:167-168 | candidates of equal rank keep their enumeration order |
| HidManager.ExactInterfaceRankedFirst | src/headsetcontrol_tray/hid_manager.py:113-126 | when an exact command interface is present, the first of them comes first |
| HidManager.FirstOpening | src/headsetcontrol_tray/hid_manager.py:209-244 | the index found opens and every earlier candidate does not; None means none opens |
| HidManager.ChoiceOn | src/headsetcontrol_tray/hid_manager.py:209-244 | a chosen candidate opens |
| HidManager.ConnectChoice | src/headsetcontrol_tray/hid_manager.py:199-249 | a chosen interface opens |
| HidManager.ConnectChoiceSpec | src/headsetcontrol_tray/hid_manager.py:199-249 | a chosen interface is a candidate; with none chosen, no candidate opens |
| HidManager.AttemptsOnFail | src/headsetcontrol_tray/hid_manager.py:209-249 | after a failure every attempted path fails; after a success the last attempt is the chosen path and all earlier ones failed |
| HidManager.ConnectAttemptsFail | src/headsetcontrol_tray/hid_manager.py:199-249 | the same, for a whole connect on a bus |
| HidManager.ConnectAttemptsBound | src/headsetcontrol_tray/hid_manager.py:201-205 | at most one open per candidate, and none at all without candidates |
| HidManager.HidConnectionManager.constructor | src/headsetcontrol_tray/hid_manager.py:24-27 | no handle and no device dictionary |
| HidManager.HidConnectionManager.FindPotentialHidDevices | src/headsetcontrol_tray/hid_manager.py:30-88 | returns the candidates of the bus |
| HidManager.HidConnectionManager.ConnectDevice | src/headsetcontrol_tray/hid_manager.py:184-249 | with a handle, returns it without enumerating or opening; otherwise it attempts exactly the opens of the connect loop, keeps the chosen interface with its fresh open handle, or clears both fields |
| HidManager.HidConnectionManager.OpenFirstCandidate | src/headsetcontrol_tray/hid_manager.py:209-244 | the loop skips pathless entries and failed opens and stops at the first open; its choice and attempts are those of the specification functions |
| HidManager.HidConnectionManager.EnsureConnection | src/headsetcontrol_tray/hid_manager.py:251-269 | true iff a handle is held; with one already held, nothing is attempted |
| HidManager.HidConnectionManager.GetHidDevice | src/headsetcontrol_tray/hid_manager.py:271-282 | the handle held |
| HidManager.HidConnectionManager.GetSelectedDeviceInfo | src/headsetcontrol_tray/hid_manager.py:284-290 | the dictionary held |
| HidManager.HidConnectionManager.Close | src/headsetcontrol_tray/hid_manager.py:292-314 | afterwards no handle, even if close raised; a held handle is closed and its dictionary cleared; a second call changes nothing |
| HidCommunicator.Frame | src/headsetcontrol_tray/hid_communicator.py:68-69 | a positive report id is put in front of the data; otherwise the data is unchanged |
| Utf8.WellFormedPrefix | src/headsetcontrol_tray/hid_communicator.py:42 | the bytes that begin a well-formed UTF-8 sequence: the whole sequence when complete, else its maximal subpart, bounded by the lead byte's sequence length and the narrowed second-byte ranges |
| Utf8.Decode | src/headsetcontrol_tray/hid_communicator.py:42 | `decode("utf-8", "replace")`: never more characters than bytes, and empty iff the input is |
| Utf8.DecodeStep | src/headsetcontrol_tray/hid_communicator.py:42 | a complete sequence at the start decodes to its scalar value; anything else to U+FFFD first |
| Utf8.DecodeEncode | src/headsetcontrol_tray/hid_communicator.py:42 | every string comes back from its UTF-8 encoding |
| Utf8.EncodeDecode | src/headsetcontrol_tray/hid_communicator.py:42 | bytes whose decoding holds no U+FFFD are exactly the encoding of that decoding |
| Utf8.DecodeAscii | src/headsetcontrol_tray/hid_communicator.py:42 | an ASCII path decodes one character per byte, each to itself |
| Utf8.DecodeTwoByte | src/headsetcontrol_tray/hid_communicator.py:42 | 0xC3 0xA9 decodes to the one character "é" |
| Utf8.DecodeMaximalSubparts | src/headsetcontrol_tray/hid_communicator.py:42 | one U+FFFD per maximal subpart: E0 80 gives two, E1 80 one, ED A0 80 three, F0 90 80 41 one and then "A", FF one |
| HidCommunicator.PathDescription | src/headsetcontrol_tray/hid_communicator.py:40-45 | the decoded path, or "Unknown Path" |
| HidCommunicator.ProductDescription | src/headsetcontrol_tray/hid_communicator.py:47-52 | the product string, or "Unknown Product" |
| HidCommunicator.CheckedRead | src/headsetcontrol_tray/hid_communicator.py:130-172 | Some iff the read returned a non-empty answer of at least n bytes; then the bytes unchanged |
| HidCommunicator.WriteSucceeded | src/headsetcontrol_tray/hid_communicator.py:90-114 | true iff the write returned a positive count and did not raise |
| HidCommunicator.Communicator.constructor | src/headsetcontrol_tray/hid_communicator.py:19-58 | keeps the device and the two descriptive strings |
| HidCommunicator.Communicator.WriteReport | src/headsetcontrol_tray/hid_communicator.py:60-114 | the framed report goes to the device; the result is true iff the count was positive with no exception |
| HidCommunicator.Communicator.ReadReport | src/headsetcontrol_tray/hid_communicator.py:116-172 | the n bytes read when at least n arrived; None for an exception, an empty read or a short read |
| HidCommunicator.NewCommunicator | src/headsetcontrol_tray/hid_communicator.py:28-35 | a None device is refused; otherwise a new communicator on that device |
| Service.PlaceholderInfo | src/headsetcontrol_tray/headset_service.py:67-75 | the stand-in dictionary has an ASCII path and the product "unknown_product_service" |
| Service.PlaceholderDescriptions | src/headsetcontrol_tray/headset_service.py:67-75 | a communicator built on the stand-in describes it as "unknown_path_service" / "unknown_product_service" |
| Service.CommunicatorInfo | src/headsetcontrol_tray/headset_service.py:66-77 | the manager's dictionary when it has one, else the stand-in |
| Service.ServiceRulesPath | src/headsetcontrol_tray/headset_service.py:103 | the path checked is the udev manager's final rules path |
| Service.StatusResponse | src/headsetcontrol_tray/headset_service.py:160-178 | the eight bytes delivered when at least eight arrive, else None |
| Service.LoggedStatus | src/headsetcontrol_tray/headset_service.py:208-253 | 0x01 iff online and charging, 0x02 iff online and not charging, 0x00 iff offline |
| Service.LoggedStatusFollowsStatusByte | src/headsetcontrol_tray/headset_service.py:208-253 | a full report always parses, and its logging code is 0x00, 0x01, or 0x02 for any larger status byte |
| Service.ReportedBattery | src/headsetcontrol_tray/headset_service.py:299-320 | a level only for a status that is present and online and has one |
| Service.ReportedChatmix | src/headsetcontrol_tray/headset_service.py:322-342 | a ChatMix value only for a status that is present and online and has one |
| Service.ReportedCharging | src/headsetcontrol_tray/headset_service.py:344-364 | a charging flag only for a status that is present and online and has one |
| Service.ReportedFieldsInRange | src/headsetcontrol_tray/headset_service.py:299-364 | reported levels are multiples of 25 up to 100, ChatMix lies in 0..128, charging is Some(true) iff status byte 0x01, and no level iff offline or an unknown bucket |
| Service.HeadsetService.constructor | src/headsetcontrol_tray/headset_service.py:28-45 | new managers, no communicator, no setup details, empty caches |
| Service.HeadsetService.EnsureHidCommunicator | src/headsetcontrol_tray/headset_service.py:50-120 | a no-op returning true while attached; otherwise the manager connects, and the result is true iff a communicator (new, or the current one when it already wraps the handle) is bound to the handle; on failure no communicator, and rule guidance only when the rules file is absent, with details kept only when preparing them succeeds |
| Service.HeadsetService.PrepareMissingRules | src/headsetcontrol_tray/headset_service.py:102-119 | nothing happens when the rules file exists; otherwise the rules are prepared and the details are kept only on success |
| Service.HeadsetService.Close | src/headsetcontrol_tray/headset_service.py:122-128 | the manager has closed and no communicator is left |
| Service.HeadsetService.QueryStatus | src/headsetcontrol_tray/headset_service.py:139-258 | the request goes out; a failed write closes, drops the communicator and clears both caches; a failed read clears both caches; otherwise the raw bytes, the parse and the logging code are stored |
| Service.HeadsetService.GetParsedStatusHid | src/headsetcontrol_tray/headset_service.py:130-258 | the result is the parsed-status cache; a status comes from the eight bytes the attached device answered the status request with; no status means no raw cache |
| Service.HeadsetService.IsDeviceConnected | src/headsetcontrol_tray/headset_service.py:260-297 | true iff a communicator is attached and the status parsed and reports online; then status byte 3 is non-zero; a status query is made exactly when a handle was held or some ranked candidate opens; without it the answer is false, nothing is sent and the status caches keep their values |
| Service.HeadsetService.GetBatteryLevel | src/headsetcontrol_tray/headset_service.py:299-320 | the level of an online status, else None; the last reported level follows the answer |
| Service.HeadsetService.GetChatmixValue | src/headsetcontrol_tray/headset_service.py:322-342 | the ChatMix value (0..128) of an online status, else None; the last reported value follows |
| Service.HeadsetService.IsCharging | src/headsetcontrol_tray/headset_service.py:344-364 | Some(true) iff the bytes read had status 0x01; the last reported flag follows |
| Service.HeadsetService.GenericSetCommand | src/headsetcontrol_tray/headset_service.py:366-398 | attach first; no payload: false, nothing sent to the device held before; with a payload: true iff a communicator remains, the last report sent then being the framed payload and the write having succeeded; a false result with a payload leaves no handle |
| Service.HeadsetService.SetSidetoneLevel | src/headsetcontrol_tray/headset_service.py:400-407 | true iff a communicator remains; then the last report sent decodes as the sidetone step of the level clamped to 0..128 |
| Service.HeadsetService.SetInactiveTimeout | src/headsetcontrol_tray/headset_service.py:409-417 | true iff a communicator remains; then the last report sent decodes as the minutes clamped to 0..90 |
| Service.HeadsetService.SetEqValues | src/headsetcontrol_tray/headset_service.py:419-428 | a curve of other than ten bands fails; for ten, true iff a communicator remains, and then the last report sent decodes as the curve's band bytes with slot 0x00 |
| Service.HeadsetService.SetEqPresetId | src/headsetcontrol_tray/headset_service.py:430-436 | an id outside 0..3 fails; otherwise true iff a communicator remains, and then the last report sent is that preset's command |
| Service.HeadsetService.GetUdevSetupDetails | src/headsetcontrol_tray/headset_service.py:438-441 | the details kept in this session |
| Service.NewHeadsetService | src/headsetcontrol_tray/headset_service.py:28-48 | empty caches and one connect: the opens attempted and the interface kept are those of the connect loop, and a communicator exists iff a handle does |
| UdevManager.FinalRulesPath | src/headsetcontrol_tray/udev_manager.py:23-24 | "/etc/udev/rules.d/99-steelseries-headsets.rules" |
| UdevManager.VidHexIs1038 | src/headsetcontrol_tray/udev_manager.py:17 | the vendor id reads "1038" |
| UdevManager.RuleLineNamesPid | src/headsetcontrol_tray/udev_manager.py:18-21 | each rule has the fixed prefix and suffix, and its four hex digits read back as the PID |
| UdevManager.RuleLinesCoverTargets | src/headsetcontrol_tray/udev_manager.py:18-21 | one rule per target PID, in order, each naming its own PID |
| UdevManager.RuleLineHasNoNewline | src/headsetcontrol_tray/udev_manager.py:19 | a rule is a single line |
| UdevManager.UdevRuleContentLines | src/headsetcontrol_tray/udev_manager.py:22 | the content ends in "\n" and splits into exactly the rule lines and a final empty piece |
| UdevManager.UdevRulesManager.constructor | src/headsetcontrol_tray/udev_manager.py:30-32 | no details before any call |
| UdevManager.UdevRulesManager.GetRuleContent | src/headsetcontrol_tray/udev_manager.py:35-37 | the content splits into the rule lines |
| UdevManager.UdevRulesManager.GetLastUdevSetupDetails | src/headsetcontrol_tray/udev_manager.py:101-106 | the details kept by the last preparation |
| UdevManager.UdevRulesManager.CreateRulesInteractive | src/headsetcontrol_tray/udev_manager.py:47-99 | true iff the temporary file was written; then it holds the rule content and the details name it, the final path, the file name and the content; after any error the details are None and nothing is written |
| UdevManager.UdevRulesManager.AreRulesInstalled | src/headsetcontrol_tray/udev_manager.py:108-128 | true iff the final rules path exists |
| UdevManager.DetailsForContents | src/headsetcontrol_tray/udev_manager.py:72-77 | the details hold the temporary path, the final path, "99-steelseries-headsets.rules", and content made of exactly the rule lines |
| ConfigManager.Names | src/headsetcontrol_tray/config_manager.py:139 | the curve names in insertion order |
| ConfigManager.Lookup | src/headsetcontrol_tray/config_manager.py:68-70 | finds a curve iff its name is in the table |
| ConfigManager.Remove | src/headsetcontrol_tray/config_manager.py:85-86 | removing never grows the table |
| ConfigManager.AssignLookup | src/headsetcontrol_tray/config_manager.py:80 | after assigning, the name holds the new values and every other name is unchanged |
| ConfigManager.AssignNames | src/headsetcontrol_tray/config_manager.py:80 | overwriting keeps the order of names; a new name goes last |
| ConfigManager.AssignUnique | src/headsetcontrol_tray/config_manager.py:80 | names stay distinct |
| ConfigManager.RemoveLookup | src/headsetcontrol_tray/config_manager.py:85-86 | after removing, the name is absent and every other name is unchanged |
| ConfigManager.RemoveAbsent | src/headsetcontrol_tray/config_manager.py:85 | removing an absent name changes nothing |
| ConfigManager.RemoveKeepsOrder | src/headsetcontrol_tray/config_manager.py:85-86 | the remaining entries come from the table, and names stay distinct |
| ConfigManager.DefaultCurves | src/headsetcontrol_tray/app_config.py:38-44 | one entry per default curve |
| ConfigManager.DefaultCurvesShape | src/headsetcontrol_tray/app_config.py:38-44 | the defaults have distinct names, start with "Flat", and are all valid curves |
| ConfigManager.Get | src/headsetcontrol_tray/config_manager.py:54-56 | the stored value, else the default |
| ConfigManager.LastCurveNameFallback | src/headsetcontrol_tray/config_manager.py:124-140 | a stored list raises `TypeError` (None), even with no curves; otherwise a stored name that names a curve wins, then "Flat", then the first curve in insertion order, and with no curves the stored value; with any curve an answer names one |
| ConfigManager.Config.constructor | src/headsetcontrol_tray/config_manager.py:18-31 | the loaded settings; an empty loaded table becomes the defaults, written once |
| ConfigManager.Config.SaveSettings | src/headsetcontrol_tray/config_manager.py:46-51 | one write of the settings file; a write error leaves the file as it was |
| ConfigManager.Config.SaveCurves | src/headsetcontrol_tray/config_manager.py:46-51 | one write of the curves file; a write error leaves the file as it was |
| ConfigManager.Config.GetSetting | src/headsetcontrol_tray/config_manager.py:54-56 | the stored value or the default |
| ConfigManager.Config.SetSetting | src/headsetcontrol_tray/config_manager.py:58-61 | only that key changes, and the settings are written |
| ConfigManager.Config.GetAllCustomEqCurves | src/headsetcontrol_tray/config_manager.py:64-66 | the table, as a copy |
| ConfigManager.Config.GetCustomEqCurve | src/headsetcontrol_tray/config_manager.py:68-70 | a curve iff its name is stored |
| ConfigManager.Config.SaveCustomEqCurve | src/headsetcontrol_tray/config_manager.py:72-81 | refused (ValueError) unless ten ints, with nothing changed; otherwise only that name is inserted or overwritten, and the table is written |
| ConfigManager.Config.DeleteCustomEqCurve | src/headsetcontrol_tray/config_manager.py:83-96 | a no-op for an absent name, both files included; otherwise only that name is removed and the curve file holds the new table when writable; the last-curve setting becomes "Flat", with one settings write, only when it named the deleted curve |
| ConfigManager.Config.GetLastSidetoneLevel | src/headsetcontrol_tray/config_manager.py:99-101 | the stored level, 64 by default |
| ConfigManager.Config.SetLastSidetoneLevel | src/headsetcontrol_tray/config_manager.py:103-105 | stores the level, read back by the getter; one settings write, the file holding the new settings when writable |
| ConfigManager.Config.GetLastInactiveTimeout | src/headsetcontrol_tray/config_manager.py:107-109 | the stored minutes, 15 by default |
| ConfigManager.Config.SetLastInactiveTimeout | src/headsetcontrol_tray/config_manager.py:111-113 | stores the minutes, read back by the getter; one settings write, the file holding the new settings when writable |
| ConfigManager.Config.GetLastActiveEqPresetId | src/headsetcontrol_tray/config_manager.py:115-117 | the stored preset id, 0 by default |
| ConfigManager.Config.SetLastActiveEqPresetId | src/headsetcontrol_tray/config_manager.py:119-122 | stores the preset and sets the EQ type to "hardware", in two writes; the file then holds the new settings when writable |
| ConfigManager.Config.GetLastCustomEqCurveName | src/headsetcontrol_tray/config_manager.py:124-140 | None (the `TypeError`) iff the stored value is a list; with any curve stored, an answer names a curve |
| ConfigManager.Config.SetLastCustomEqCurveName | src/headsetcontrol_tray/config_manager.py:142-145 | stores the name and sets the EQ type to "custom"; a stored curve's name is then read back; two writes, the file holding the new settings when writable |
| ConfigManager.Config.GetActiveEqType | src/headsetcontrol_tray/config_manager.py:147-149 | the stored kind, "custom" by default |
| PollingService.BatteryStatusText | src/headsetcontrol_tray/ui/headset_polling_service.py:113-123 | each of the four texts, as an iff: charging first, then a level of 100, then any known level, else unavailable |
| PollingService.CurrentReading | src/headsetcontrol_tray/ui/headset_polling_service.py:100-125 | all None when disconnected; otherwise the level, its text and the ChatMix value |
| PollingService.DataChanged | src/headsetcontrol_tray/ui/headset_polling_service.py:103-132 | connected: any of the three values differs from last time; disconnected: there was a level or a ChatMix value last time |
| PollingService.ManageInterval | src/headsetcontrol_tray/ui/headset_polling_service.py:162-202 | only the timer, fast flag and counter change |
| PollingService.PollKeepsCounterInvariant | src/headsetcontrol_tray/ui/headset_polling_service.py:162-202 | each poll keeps 0 ≤ counter < 3, and the counter is 0 unless in fast mode |
| PollingService.PollEmission | src/headsetcontrol_tray/ui/headset_polling_service.py:89-153 | emits iff first poll, connection change or data change; an emission clears the first-poll flag; the last-known values become the current ones |
| PollingService.DisconnectResetsInterval | src/headsetcontrol_tray/ui/headset_polling_service.py:170-178 | disconnected: normal interval, fast mode off, counter 0 |
| PollingService.ChangeStartsFastPolling | src/headsetcontrol_tray/ui/headset_polling_service.py:193-201 | in normal mode, a change while connected switches to 100 ms with counter 0 |
| PollingService.RepeatedDisconnectIsQuiet | src/headsetcontrol_tray/ui/headset_polling_service.py:105-148 | a second disconnected poll emits nothing |
| PollingService.SteadySampleIsQuiet | src/headsetcontrol_tray/ui/headset_polling_service.py:127-148 | the same connected sample polled again is no change and emits nothing |
| PollingService.FastPollingExpires | src/headsetcontrol_tray/ui/headset_polling_service.py:179-191 | three unchanged fast polls bring back 1000 ms with fast mode off and counter 0 |
| PollingService.HeadsetPollingService.constructor | src/headsetcontrol_tray/ui/headset_polling_service.py:34-58 | disconnected, nothing known, normal mode, first poll pending, timer idle |
| PollingService.HeadsetPollingService.Start | src/headsetcontrol_tray/ui/headset_polling_service.py:60-70 | acts only when the timer is idle: normal interval, timer running, then exactly one poll, which emits |
| PollingService.HeadsetPollingService.Stop | src/headsetcontrol_tray/ui/headset_polling_service.py:72-75 | the timer is stopped |
| PollingService.HeadsetPollingService.PollStatus | src/headsetcontrol_tray/ui/headset_polling_service.py:79-159 | the new fields are those of the poll function, and the payload, if any, is appended to the emissions |
| PollingService.HeadsetPollingService.ManagePollingInterval | src/headsetcontrol_tray/ui/headset_polling_service.py:162-202 | the new fields are those of the interval function |
| TrayTooltip.ChatmixPercent | src/headsetcontrol_tray/ui/tray_tooltip_manager.py:25 | within one half of 100v/128, so 0..100 for 0..128, with 0, 50 and 100 at the named points |
| TrayTooltip.ChatmixDisplayString | src/headsetcontrol_tray/ui/tray_tooltip_manager.py:21-33 | "N/A" for None; otherwise the text ends in "%)" |
| TrayTooltip.ChatmixDisplayFullChat | src/headsetcontrol_tray/ui/tray_tooltip_manager.py:26-27 | 0 reads "Chat (0%)" |
| TrayTooltip.ChatmixDisplayBalanced | src/headsetcontrol_tray/ui/tray_tooltip_manager.py:28-29 | 64 reads "Balanced (50%)" |
| TrayTooltip.ChatmixDisplayFullGame | src/headsetcontrol_tray/ui/tray_tooltip_manager.py:30-31 | 128 reads "Game (100%)" |
| TrayTooltip.ChatmixDisplayBetweenPoints | src/headsetcontrol_tray/ui/tray_tooltip_manager.py:32-33 | any other value reads "v (p%)", and both numbers read back as v and the rounded percentage |
| TrayTooltip.ChatmixPercentMonotone | src/headsetcontrol_tray/ui/tray_tooltip_manager.py:25 | the percentage is monotone in the value |
| TrayTooltip.ChatmixDisplayQuarter | src/headsetcontrol_tray/ui/tray_tooltip_manager.py:25-33 | 32 reads "32 (25%)" |
| TrayTooltip.ChatmixDisplayTieDown | src/headsetcontrol_tray/ui/tray_tooltip_manager.py:25 | 16 reads "16 (12%)": 12.5 rounds to even |
| TrayTooltip.ChatmixDisplayTieUp | src/headsetcontrol_tray/ui/tray_tooltip_manager.py:25 | 48 reads "48 (38%)": 37.5 rounds to even |
| TrayTooltip.BatteryLine | src/headsetcontrol_tray/ui/tray_tooltip_manager.py:66-80 | starts "Battery: "; without a level, "Unavailable" iff the text is BATTERY_UNAVAILABLE, else "N/A"; with a level, the level and "%" follow |
| TrayTooltip.EqName | src/headsetcontrol_tray/ui/tray_tooltip_manager.py:87-96 | a non-empty custom name; a hardware preset's name, or "Preset id" for an unknown id; and "Unknown" exactly otherwise (or for a custom curve called "Unknown") |
| TrayTooltip.GetTooltip | src/headsetcontrol_tray/ui/tray_tooltip_manager.py:61-98 | "Headset disconnected" when disconnected; otherwise it starts with the battery line |
| TrayTooltip.ChatmixDisplayHasNoNewline | src/headsetcontrol_tray/ui/tray_tooltip_manager.py:21-33 | the ChatMix text is one line |
| TrayTooltip.BatteryLineHasNoNewline | src/headsetcontrol_tray/ui/tray_tooltip_manager.py:66-80 | the battery line is one line |
| TrayTooltip.EqLineHasNoNewline | src/headsetcontrol_tray/ui/tray_tooltip_manager.py:87-96 | the EQ line is one line when a custom name in use has no line break |
| TrayTooltip.ConnectedTooltipLines | src/headsetcontrol_tray/ui/tray_tooltip_manager.py:61-98 | connected, the tooltip is exactly three lines: battery, "ChatMix: …", EQ |
| TrayTooltip.BatteryLineOfPolledStatus | src/headsetcontrol_tray/ui/tray_tooltip_manager.py:66-80 | for what the poller reports: "N% (Charging)", "100% (Full)", "N%", "Unavailable", or "N/A" when charging with no level |
| Prelude.Clamp | src/headsetcontrol_tray/headset_status.py:204 | `max(lo, min(hi, x))`: the result lies in lo..hi, is x inside the range and the nearer bound outside it |
| Prelude.RoundHalfEven | src/headsetcontrol_tray/ui/tray_tooltip_manager.py:25 | Python round: the nearest integer, and the even one on a tie |
| Prelude.TruncDiv | src/headsetcontrol_tray/headset_status.py:125-126 | Python int() of a quotient: truncation toward zero for either sign |
| Prelude.IntToStringRoundTrip | src/headsetcontrol_tray/ui/tray_tooltip_manager.py:33 | the decimal text of an int reads back as that int |
| Prelude.Hex04RoundTrip | src/headsetcontrol_tray/udev_manager.py:17-19 | format(n, "04x") reads back as n and has four digits below 0x10000 |
| Prelude.SplitJoin | src/headsetcontrol_tray/ui/tray_tooltip_manager.py:98 | splitting a join gives back the parts when none contains the separator |
| StableSort.SortBySorted | src/headsetcontrol_tray/hid_manager.py:168 | the sort orders by key |
| StableSort.SortByPermutes | src/headsetcontrol_tray/hid_manager.py:168 | the sort is a permutation |
| StableSort.SortByStable | src/headsetcontrol_tray/hid_manager.py:168 | elements of equal key keep their order |
| StableSort.StableSortIsSortBy | src/headsetcontrol_tray/hid_manager.py:168 | every stable sort gives the same result, so the model is Python's sort |
| StableSort.SortByKeyShift | headsetcontrol_tray/headset_service.py:143-163 | keys shifted by a constant sort alike |
| LegacyService.SortKey | headsetcontrol_tray/headset_service.py:143-161 | −2 exact interface (vendor, target PID, interface 3, usage page, usage), −1 PID 0x2202 on interface 0, 0 interface 3, 1 usage page 0xFFC0, 2 otherwise, each as an iff |
| LegacyService.SortKeyIsManagerRankShifted | headsetcontrol_tray/headset_service.py:143-161 | on every candidate the legacy rank is the maintained rank plus one |
| LegacyService.Ranked | headsetcontrol_tray/headset_service.py:125-163 | one ranked entry per candidate |
| LegacyService.RankedSortsCandidates | headsetcontrol_tray/headset_service.py:163 | sorted by the key, and a permutation of the candidates |
| LegacyService.RankedAsManager | headsetcontrol_tray/headset_service.py:125-163 | the legacy ranking equals the maintained manager's |
| LegacyService.FirstOpening | headsetcontrol_tray/headset_service.py:166-187 | the index found opens and every earlier one does not |
| LegacyService.ChoiceOn | headsetcontrol_tray/headset_service.py:166-187 | a chosen candidate opens |
| LegacyService.ConnectChoice | headsetcontrol_tray/headset_service.py:118-195 | a chosen interface opens |
| LegacyService.ConnectChoiceSpec | headsetcontrol_tray/headset_service.py:132-195 | a chosen interface is a candidate; with none chosen, no candidate opens |
| LegacyService.FirstOpeningAsManager | headsetcontrol_tray/headset_service.py:166-187 | with non-empty paths, the same first opening as the manager |
| LegacyService.TriedPathsAsManager | headsetcontrol_tray/headset_service.py:166-187 | with non-empty paths, the same attempted paths as the manager |
| LegacyService.ConnectAsManager | headsetcontrol_tray/headset_service.py:118-195 | with non-empty paths, the same interface kept and the same opens attempted as the manager |
| LegacyService.WrittenRulesAsManager | headsetcontrol_tray/headset_service.py:52-56 | the content plus the newline written is exactly the maintained rule file |
| LegacyService.FinalRulesPath | headsetcontrol_tray/headset_service.py:88 | the maintained final rules path |
| LegacyService.ParseStatus | headsetcontrol_tray/headset_service.py:354-423 | None iff short; online iff status byte non-zero; offline leaves all fields None; charging iff 0x01; the battery bucket table; ChatMix in 0..128 |
| LegacyService.ParseStatusAsParser | headsetcontrol_tray/headset_service.py:375-415 | the inline parse agrees field for field with the maintained parser |
| LegacyService.SidetonePayload | headsetcontrol_tray/headset_service.py:503-514 | three bytes, the sidetone prefix, a bucket of at most 3 |
| LegacyService.SidetoneAsEncoder | headsetcontrol_tray/headset_service.py:490-514 | clamp then bucket gives the maintained encoder's command |
| LegacyService.InactiveTimeoutPayload | headsetcontrol_tray/headset_service.py:531-534 | three bytes, the timeout prefix, the minutes as given |
| LegacyService.InactiveTimeoutAsEncoder | headsetcontrol_tray/headset_service.py:550-558 | clamp then send gives the maintained encoder's command |
| LegacyService.EqByte | headsetcontrol_tray/headset_service.py:570-572 | the 0..255 clamp gives the maintained band byte |
| LegacyService.EqBandsPayload | headsetcontrol_tray/headset_service.py:568-575 | the loop builds exactly the maintained encoder's 13-byte command |
| LegacyService.LegacyHeadsetService.constructor | headsetcontrol_tray/headset_service.py:68-78 | no handle, no path, no details, empty caches |
| LegacyService.LegacyHeadsetService.CreateUdevRules | headsetcontrol_tray/headset_service.py:83-116 | true iff the temporary file was written; then it holds the rules plus a newline and the details name it, the final path and the file name; after an error the details are None and nothing is written |
| LegacyService.LegacyHeadsetService.OpenFirstCandidate | headsetcontrol_tray/headset_service.py:166-187 | the loop's choice and attempts are those of the specification functions |
| LegacyService.LegacyHeadsetService.OpenBestCandidate | headsetcontrol_tray/headset_service.py:125-187 | enumerate, filter, rank and open: the choice and attempts of a connect |
| LegacyService.LegacyHeadsetService.ConnectHidDevice | headsetcontrol_tray/headset_service.py:118-195 | true at once when connected; otherwise the first ranked candidate that opens is held with its path and no rules are made, or both are cleared and the rules are prepared exactly once |
| LegacyService.LegacyHeadsetService.ForgetAndCreateRules | headsetcontrol_tray/headset_service.py:191-195 | with no candidate opened, the handle and path are cleared and the rules are prepared once |
| LegacyService.LegacyHeadsetService.EnsureHidConnection | headsetcontrol_tray/headset_service.py:197-201 | true iff a handle is held; connects only without one |
| LegacyService.LegacyHeadsetService.Close | headsetcontrol_tray/headset_service.py:203-213 | the handle is closed and it and its path are forgotten |
| LegacyService.LegacyHeadsetService.WriteHidReport | headsetcontrol_tray/headset_service.py:215-248 | connect if need be, write the framed report; a count ≤ 0 or an error closes the handle and gives false |
| LegacyService.LegacyHeadsetService.WriteHeld | headsetcontrol_tray/headset_service.py:236-248 | the frame goes to the held handle; true iff the write succeeded, otherwise the handle is closed and forgotten |
| LegacyService.LegacyHeadsetService.SendCommand | headsetcontrol_tray/headset_service.py:226-248 | connect-then-write of a payload; tells a failed connection from a failed write |
| LegacyService.LegacyHeadsetService.GetParsedStatusHid | headsetcontrol_tray/headset_service.py:338-423 | no connection clears both caches; a failed write returns None; a raising read escapes; a short read clears both caches; otherwise the parse, the raw bytes and the raw status byte are cached |
| LegacyService.LegacyHeadsetService.ReadStatusReply | headsetcontrol_tray/headset_service.py:354-423 | the cache updates after the request, case by case |
| LegacyService.LegacyHeadsetService.SetSidetoneLevel | headsetcontrol_tray/headset_service.py:490-496 | sends the maintained sidetone command of the clamped level |
| LegacyService.LegacyHeadsetService.SetSidetoneLevelHid | headsetcontrol_tray/headset_service.py:498-524 | connect, then the bucketed sidetone payload |
| LegacyService.LegacyHeadsetService.SetInactiveTimeout | headsetcontrol_tray/headset_service.py:550-558 | sends the maintained timeout command of the clamped minutes |
| LegacyService.LegacyHeadsetService.SetInactiveTimeoutHid | headsetcontrol_tray/headset_service.py:526-544 | connect, then the minutes as given (out of range is only warned about) |
| LegacyService.LegacyHeadsetService.SetEqValuesHid | headsetcontrol_tray/headset_service.py:560-600 | after connecting, other than ten bands fails with no write; otherwise writes exactly the maintained EQ command |
| LegacyService.NewLegacyHeadsetService | headsetcontrol_tray/headset_service.py:68-81 | empty caches, then one connect as `_connect_hid_device` makes it |

## Left out

- Logging, including the fields that exist only to avoid repeating log lines
  (`_last_hid_only_connection_logged_status`, the "unchanged" branches) and every
  message text.
- The JSON read and write bodies of the configuration store. The constructor takes what
  the files held. A missing or malformed file reads as empty, and the curves file is
  taken to map names to lists. A write either stores the data or, on an `OSError`,
  leaves the file alone.
- The Qt timer and the `status_updated` signal. The timer is two fields (running,
  interval) and emissions are appended to a sequence. The poller gets the answers of the
  headset service as a `Sample` parameter instead of calling it.
- The `hid` library, `os.path.exists` and `tempfile` are oracles whose environment is
  fixed in constant fields. The random part of a temporary file name is a given string.
- `hid.enumerate` filters by vendor id itself, and the oracle does the same. The product
  id and vendor id are always present in an entry, as the library guarantees; every other
  key may be absent.
- Sorting is modelled on a sequence value. In the legacy service, `list.sort` in place is
  modelled as reassigning a local sequence; no other reference to that list exists.
- An open that raises something other than `hid.HIDException` counts as "does not open".
  Both `except` branches of the open loop do the same thing.
- A pathless entry in the legacy service: the log lines of `_connect_hid_device`
  (`headsetcontrol_tray/headset_service.py:136`) read `path` without a default, so an
  entry without that key would raise `KeyError`. The library always supplies the key. The
  model skips such an entry without an open, as the maintained manager does; unlike the
  manager, the legacy loop also tries an empty path.
- Legacy `_read_hid_report`, `get_battery_level*`, `get_chatmix*`, `is_charging*`,
  `get_sidetone_level`, `get_inactive_timeout`, `get_current_eq_values` and
  `get_current_eq_preset_id`. The first six are logging wrappers around the modelled
  status read; the last four only return None.
- Legacy `_set_eq_preset_hid` and `set_eq_preset_id`. They read
  `app_config.ARCTIS_NOVA_7_HW_PRESETS`, which `headsetcontrol_tray/app_config.py` does
  not define, so every call raises `AttributeError`.
- LegacyService.LegacyHeadsetService.SetInactiveTimeoutHid takes a byte. The Python method
  appends any int, and `bytes()` would raise for one outside 0..255. Its only caller passes
  0..90.
- HidCommunicator.Frame requires a report id below 256. `bytes([report_id])` raises
  above that, and every caller passes 0.
- The legacy `_last_reported_*` fields: no modelled method reads or writes them.
- The stand-in dictionary of `_ensure_hid_communicator` has no vendor or product id. The
  model gives them as 0, and the communicator never reads them.
- Failure branches no input can reach: the parse failure in `_get_parsed_status_hid`
  (`read_report` already refuses fewer than eight bytes) and the length check of
  `encode_set_eq_values` (proved always to pass).
- TrayTooltip.ChatmixDisplayString: the function's own contract states only the "N/A"
  case and the "%)" ending. The exact text is stated by the lemmas for the named points,
  for the values between them, and for 16, 32 and 48.
- TrayTooltip.BatteryLine: the " (Charging)" and " (Full)" markers are stated by
  BatteryLineOfPolledStatus for the texts the poller produces, not for arbitrary text.
- Floating point is modelled with exact reals and integers:
  - EQ bands use `real` and truncation.
  - The ChatMix products `(x / 100.0) * 64.0` are taken as exact, before truncation.
  - The tooltip percentage `v / 128.0 * 100` is exact in binary floating point for the
    values 0..128 that a ChatMix reading takes. Other values are modelled as exact
    rationals.
- The wider application is not part of this model: other UI (menus, dialogs, the
  equaliser editor), the PipeWire ChatMix manager, the application bootstrap and the OS
  layer.

## Findings

| source | as written | input that shows it | evidently intended | confidence | as-written member | corrected member |
|---|---|---|---|---|---|---|
| src/headsetcontrol_tray/hid_manager.py:132-135 | `sort_key` compares with `app_config.ARCTIS_NOVA_7_USER_INTERFACE`, which no configuration file defines, so ranking raises `AttributeError` out of `connect_device` | a candidate with product id 0x2202 on interface 0, or any user-PID entry other than the exact command interface | the constant is 0, so the user PID on interface 0 ranks just below the command interface, as in the legacy ranking and in tests/test_hid_manager.py:152-161 | not executed; high | HidManager.SortHidDevicesAsShipped | HidManager.SortKey |
