/** The constant tables of `src/headsetcontrol_tray/app_config.py` that the core reads:
    USB identifiers, the HID interface the commands go to, command prefixes, status-report
    byte offsets, defaults and the EQ tables. The legacy `headsetcontrol_tray/app_config.py`
    has the same values for every constant below except `HwPresets`, which it lacks. */
module AppConfig {
  import opened Prelude

  const SteelseriesVid: int := 0x1038

  const ArctisNova7UserPid: int := 0x2202
  const ArctisNova7WirelessPid: int := 0x12dd
  const ArctisNova7XWirelessPid: int := 0x12da
  const ArctisNova7PWirelessPid: int := 0x12db

  /** Product ids to try, the user's own first. */
  const TargetPids: seq<int> :=
    [ArctisNova7UserPid, ArctisNova7WirelessPid, ArctisNova7XWirelessPid, ArctisNova7PWirelessPid]

  /** Referenced by the device ranking but defined in no configuration file; taken as 0,
      the interface the ranking tests expect for the user's PID. */
  const ArctisNova7UserInterface: int := 0

  const HidReportInterface: int := 3
  const HidReportUsagePage: int := 0xffc0
  const HidReportUsageId: int := 0x0001
  const HidReportFixedFirstByte: byte := 0x00

  const HidCmdGetStatus: seq<byte> := [HidReportFixedFirstByte, 0xb0]
  const HidResStatusBatteryLevelByte: nat := 2
  const HidResStatusBatteryStatusByte: nat := 3
  const HidResStatusChatmixGameByte: nat := 4
  const HidResStatusChatmixChatByte: nat := 5
  const HidInputReportLengthStatus: nat := 8

  const HidCmdSetSidetonePrefix: seq<byte> := [HidReportFixedFirstByte, 0x39]
  const HidCmdSetInactiveTimePrefix: seq<byte> := [HidReportFixedFirstByte, 0xa3]
  const HidCmdSetEqBandsPrefix: seq<byte> := [HidReportFixedFirstByte, 0x33]

  const DefaultSidetoneLevel: int := 64
  const DefaultInactiveTimeout: int := 15
  const DefaultEqPresetId: int := 0
  const DefaultCustomEqCurveName: string := "Flat"

  /** The software EQ curves written on first start, in their insertion order. */
  const DefaultEqCurves: seq<(string, seq<int>)> := [
    ("Flat", [0, 0, 0, 0, 0, 0, 0, 0, 0, 0]),
    ("Bass Boost", [6, 5, 4, 2, 1, 0, 0, 0, 0, 0]),
    ("Treble Boost", [0, 0, 0, 0, 0, 1, 2, 3, 4, 5]),
    ("Vocal Clarity", [-2, -1, 0, 2, 3, 3, 2, 1, 0, -1]),
    ("Focus (FPS)", [-3, -2, -1, 0, 1, 2, 3, 4, 2, 1])
  ]

  /** One hardware preset. `values` is None when the entry's "values" is missing or is
      not a list of numbers (the shape the encoder checks for). */
  datatype PresetEntry = PresetEntry(name: string, values: Option<seq<real>>)

  const HwPresets: map<int, PresetEntry> := map[
    0 := PresetEntry("Flat (Hardware)", Some([0.0, 0.0, 0.0, 0.0, 0.0, 0.0, 0.0, 0.0, 0.0, 0.0])),
    1 := PresetEntry("Bass Boost (Hardware)", Some([3.5, 5.5, 4.0, 1.0, -1.5, -1.5, -1.0, -1.0, -1.0, -1.0])),
    2 := PresetEntry("Focus (Hardware)", Some([-5.0, -3.5, -1.0, -3.5, -2.5, 4.0, 6.0, -3.5, 0.0, 0.0])),
    3 := PresetEntry("Smiley (Hardware)", Some([3.0, 3.5, 1.5, -1.5, -4.0, -4.0, -2.5, 1.5, 3.0, 4.0]))
  ]

  const HardwareEqPresetNames: map<int, string> := map[
    0 := "Preset 1 (Default)",
    1 := "Preset 2",
    2 := "Preset 3",
    3 := "Preset 4"
  ]
}
