/** `src/headsetcontrol_tray/ui/tray_tooltip_manager.py`: the text of the tray icon's
    tooltip, built from the polled headset state and the active equaliser setting. */
module TrayTooltip {
  import opened Prelude
  import opened AppConfig
  import PollingService

  const ChatmixValueFullChat: int := 0
  const ChatmixValueBalanced: int := 64
  const ChatmixValueFullGame: int := 128

  /** `EQ_TYPE_CUSTOM` and `EQ_TYPE_HARDWARE` of the equaliser editor. */
  const EqTypeCustom: string := "custom"
  const EqTypeHardware: string := "hardware"

  /** `round(v / 128.0 * 100)`: for the values 0..128 a ChatMix reading takes, v / 128
      and its product with 100 are exact in binary floating point, so there this is
      100·v / 128 rounded half to even. Other values are rounded as exact rationals. */
  function ChatmixPercent(v: int): (p: int)
    ensures -64 <= 128 * p - 100 * v <= 64
    ensures 0 <= v <= ChatmixValueFullGame ==> 0 <= p <= 100
    ensures v == ChatmixValueFullChat ==> p == 0
    ensures v == ChatmixValueBalanced ==> p == 50
    ensures v == ChatmixValueFullGame ==> p == 100
  {
    RoundHalfEven(100 * v, ChatmixValueFullGame)
  }

  /** `_get_chatmix_display_string`: the named point or the raw value, then the
      rounded percentage in parentheses. */
  function ChatmixDisplayString(v: Option<int>): (s: string)
    ensures v.None? ==> s == "N/A"
    ensures v.Some? ==> (|s| > 2 && s[|s| - 2..] == "%)")
  {
    if v.None? then "N/A"
    else ChatmixLabel(v.value) + " (" + IntToString(ChatmixPercent(v.value)) + "%)"
  }

  function ChatmixLabel(v: int): string {
    if v == ChatmixValueFullChat then "Chat"
    else if v == ChatmixValueBalanced then "Balanced"
    else if v == ChatmixValueFullGame then "Game"
    else IntToString(v)
  }

  /** The battery line: the level with the charging or full marker when a level is
      known, else "Unavailable" for that status and "N/A" otherwise. */
  function BatteryLine(level: Option<int>, statusText: Option<string>): (line: string)
    ensures |line| >= 9 && line[..9] == "Battery: "
    ensures level.None? ==> (line == "Battery: Unavailable" <==> statusText == Some("BATTERY_UNAVAILABLE"))
    ensures level.None? ==> (line == "Battery: N/A" <==> statusText != Some("BATTERY_UNAVAILABLE"))
    ensures level.Some? ==> (|line| > 9 + |IntToString(level.value)| &&
                             line[9..9 + |IntToString(level.value)|] == IntToString(level.value) &&
                             line[9 + |IntToString(level.value)|] == '%')
  {
    if level.Some? then
      var levelText := IntToString(level.value) + "%";
      LevelLineShape(IntToString(level.value), " (Charging)");
      LevelLineShape(IntToString(level.value), " (Full)");
      if statusText == Some("BATTERY_CHARGING") then "Battery: " + levelText + " (Charging)"
      else if statusText == Some("BATTERY_FULL") then "Battery: " + levelText + " (Full)"
      else "Battery: " + levelText
    else if statusText == Some("BATTERY_UNAVAILABLE") then "Battery: Unavailable"
    else "Battery: N/A"
  }

  /** A battery line with a level reads "Battery: ", the digits and "%", with or without
      a marker after them. */
  lemma LevelLineShape(digits: string, marker: string)
    ensures var line := "Battery: " + (digits + "%");
      |line| == 10 + |digits| && line[..9] == "Battery: " && line[9..9 + |digits|] == digits &&
      line[9 + |digits|] == '%'
    ensures var line := "Battery: " + (digits + "%") + marker;
      |line| == 10 + |digits| + |marker| && line[..9] == "Battery: " && line[9..9 + |digits|] == digits &&
      line[9 + |digits|] == '%'
  {
    var line := "Battery: " + (digits + "%");
    assert line[..9] == "Battery: ";
    assert line[9..9 + |digits|] == digits;
    var marked := line + marker;
    assert marked[..|line|] == line;
    assert marked[..9] == line[..9];
    assert marked[9..9 + |digits|] == line[9..9 + |digits|];
  }

  /** What the EQ line names: a non-empty custom curve name, a hardware preset's name (or
      "Preset id" for an id without one), or "Unknown". */
  function EqName(activeEqType: Option<string>, customName: Option<string>, hwPresetId: Option<int>): (name: string)
    ensures activeEqType == Some(EqTypeCustom) && customName.Some? && customName.value != "" ==>
      name == customName.value
    ensures activeEqType == Some(EqTypeHardware) && hwPresetId.Some? && hwPresetId.value in HardwareEqPresetNames ==>
      name == HardwareEqPresetNames[hwPresetId.value]
    ensures activeEqType == Some(EqTypeHardware) && hwPresetId.Some? && hwPresetId.value !in HardwareEqPresetNames ==>
      name == "Preset " + IntToString(hwPresetId.value)
    ensures name == "Unknown" <==>
      (!(activeEqType == Some(EqTypeCustom) && customName.Some? && customName.value != "") &&
       !(activeEqType == Some(EqTypeHardware) && hwPresetId.Some?)) ||
      (activeEqType == Some(EqTypeCustom) && customName == Some("Unknown"))
  {
    if activeEqType == Some(EqTypeCustom) && customName.Some? && customName.value != "" then
      customName.value
    else if activeEqType == Some(EqTypeHardware) && hwPresetId.Some? then
      if hwPresetId.value in HardwareEqPresetNames then HardwareEqPresetNames[hwPresetId.value]
      else "Preset " + IntToString(hwPresetId.value)
    else "Unknown"
  }

  /** The EQ line: "EQ: " and the name. */
  function EqLine(activeEqType: Option<string>, customName: Option<string>, hwPresetId: Option<int>): string {
    "EQ: " + EqName(activeEqType, customName, hwPresetId)
  }

  /** `get_tooltip`. */
  function GetTooltip(
    isConnected: bool,
    batteryLevel: Option<int>,
    batteryStatusText: Option<string>,
    chatmixValue: Option<int>,
    activeEqType: Option<string>,
    currentCustomEqName: Option<string>,
    currentHwPresetId: Option<int>): (tooltip: string)
    ensures !isConnected ==> tooltip == "Headset disconnected"
    ensures isConnected ==> |tooltip| > 9 && tooltip[..9] == "Battery: "
  {
    var parts :=
      if !isConnected then ["Headset disconnected"]
      else [BatteryLine(batteryLevel, batteryStatusText),
            "ChatMix: " + ChatmixDisplayString(chatmixValue),
            EqLine(activeEqType, currentCustomEqName, currentHwPresetId)];
    Join(parts, "\n")
  }

  // ---- Properties ----

  lemma IntToStringHasNoNewline(i: int)
    ensures '\n' !in IntToString(i)
  {
    if i < 0 {
      var digits := NatToString(-i);
      assert IntToString(i) == "-" + digits;
      assert forall k :: 0 <= k < |digits| ==> digits[k] != '\n';
    } else {
      assert forall k :: 0 <= k < |NatToString(i)| ==> NatToString(i)[k] != '\n';
    }
  }

  lemma ChatmixDisplayHasNoNewline(v: Option<int>)
    ensures '\n' !in ChatmixDisplayString(v)
  {
    if v.Some? {
      var pointName := ChatmixLabel(v.value);
      var percentText := IntToString(ChatmixPercent(v.value));
      IntToStringHasNoNewline(v.value);
      IntToStringHasNoNewline(ChatmixPercent(v.value));
      assert '\n' !in pointName;
      assert '\n' !in pointName + " (";
      assert '\n' !in pointName + " (" + percentText;
    }
  }

  /** The three named points read "Chat (0%)", "Balanced (50%)" and "Game (100%)". */
  lemma ChatmixDisplayFullChat()
    ensures ChatmixDisplayString(Some(ChatmixValueFullChat)) == "Chat (0%)"
  {
    assert IntToString(ChatmixPercent(0)) == "0";
  }

  lemma ChatmixDisplayBalanced()
    ensures ChatmixDisplayString(Some(ChatmixValueBalanced)) == "Balanced (50%)"
  {
    assert NatToString(50) == NatToString(5) + [DigitChar(0)];
  }

  lemma ChatmixDisplayFullGame()
    ensures ChatmixDisplayString(Some(ChatmixValueFullGame)) == "Game (100%)"
  {
    assert NatToString(100) == NatToString(10) + [DigitChar(0)];
    assert NatToString(10) == NatToString(1) + [DigitChar(0)];
  }

  /** Between the named points the ChatMix string is the raw value and its percentage,
      and the percentage read back from the text is the rounded one. */
  lemma ChatmixDisplayBetweenPoints(v: int)
    requires v != ChatmixValueFullChat && v != ChatmixValueBalanced && v != ChatmixValueFullGame
    ensures var p := IntToString(ChatmixPercent(v));
      ChatmixDisplayString(Some(v)) == IntToString(v) + " (" + p + "%)" &&
      ParseIntText(p) == ChatmixPercent(v) && ParseIntText(IntToString(v)) == v
  {
    IntToStringRoundTrip(v);
    IntToStringRoundTrip(ChatmixPercent(v));
  }

  /** Moving the slider toward game never lowers the displayed percentage. */
  lemma ChatmixPercentMonotone(v1: int, v2: int)
    requires v1 <= v2
    ensures ChatmixPercent(v1) <= ChatmixPercent(v2)
  {
  }

  /** The values pinned by the tests: a quarter, and the two ties of 12.5 % and 37.5 %
      rounding to the even neighbour. */
  lemma ChatmixDisplayQuarter()
    ensures ChatmixDisplayString(Some(32)) == "32 (25%)"
  {
    assert ChatmixPercent(32) == 25;
    assert NatToString(32) == NatToString(3) + [DigitChar(2)];
    assert NatToString(25) == NatToString(2) + [DigitChar(5)];
  }

  lemma ChatmixDisplayTieDown()
    ensures ChatmixDisplayString(Some(16)) == "16 (12%)"
  {
    assert ChatmixPercent(16) == 12;
    assert NatToString(16) == NatToString(1) + [DigitChar(6)];
    assert NatToString(12) == NatToString(1) + [DigitChar(2)];
  }

  lemma ChatmixDisplayTieUp()
    ensures ChatmixDisplayString(Some(48)) == "48 (38%)"
  {
    assert ChatmixPercent(48) == 38;
    assert NatToString(48) == NatToString(4) + [DigitChar(8)];
    assert NatToString(38) == NatToString(3) + [DigitChar(8)];
  }

  lemma BatteryLineHasNoNewline(level: Option<int>, statusText: Option<string>)
    ensures '\n' !in BatteryLine(level, statusText)
  {
    if level.Some? {
      var t := IntToString(level.value);
      IntToStringHasNoNewline(level.value);
      assert '\n' !in "Battery: " + t + "%";
      assert '\n' !in " (Charging)" && '\n' !in " (Full)";
    } else {
      assert '\n' !in "Battery: Unavailable" && '\n' !in "Battery: N/A";
    }
  }

  lemma EqLineHasNoNewline(activeEqType: Option<string>, customName: Option<string>, hwPresetId: Option<int>)
    requires activeEqType == Some(EqTypeCustom) && customName.Some? ==> '\n' !in customName.value
    ensures '\n' !in EqLine(activeEqType, customName, hwPresetId)
  {
    if hwPresetId.Some? {
      IntToStringHasNoNewline(hwPresetId.value);
    }
  }

  /** A connected tooltip is exactly three lines — battery, ChatMix, EQ — as long as a
      custom curve name in use has no line break of its own. */
  lemma ConnectedTooltipLines(
    batteryLevel: Option<int>, batteryStatusText: Option<string>, chatmixValue: Option<int>,
    activeEqType: Option<string>, currentCustomEqName: Option<string>, currentHwPresetId: Option<int>)
    requires activeEqType == Some(EqTypeCustom) && currentCustomEqName.Some? ==> '\n' !in currentCustomEqName.value
    ensures Split(GetTooltip(true, batteryLevel, batteryStatusText, chatmixValue, activeEqType,
                             currentCustomEqName, currentHwPresetId), '\n') ==
      [BatteryLine(batteryLevel, batteryStatusText),
       "ChatMix: " + ChatmixDisplayString(chatmixValue),
       EqLine(activeEqType, currentCustomEqName, currentHwPresetId)]
  {
    BatteryLineHasNoNewline(batteryLevel, batteryStatusText);
    ChatmixDisplayHasNoNewline(chatmixValue);
    EqLineHasNoNewline(activeEqType, currentCustomEqName, currentHwPresetId);
    ChatmixLineHasNoNewline(ChatmixDisplayString(chatmixValue));
    ThreeLinesSplit(BatteryLine(batteryLevel, batteryStatusText),
                    "ChatMix: " + ChatmixDisplayString(chatmixValue),
                    EqLine(activeEqType, currentCustomEqName, currentHwPresetId));
  }

  lemma ChatmixLineHasNoNewline(display: string)
    requires '\n' !in display
    ensures '\n' !in "ChatMix: " + display
  {
    assert '\n' !in "ChatMix: ";
  }

  /** Three lines without a line break of their own split back apart after the join. */
  lemma ThreeLinesSplit(battery: string, chatmix: string, eq: string)
    requires '\n' !in battery && '\n' !in chatmix && '\n' !in eq
    ensures Split(Join([battery, chatmix, eq], "\n"), '\n') == [battery, chatmix, eq]
  {
    var parts := [battery, chatmix, eq];
    assert forall i :: 0 <= i < |parts| ==> '\n' !in parts[i];
    SplitJoin(parts, '\n');
  }

  /** The battery line of what the poller reports for a connected headset: charging
      and full are shown when a level is known, a known level is otherwise shown plain,
      and an unknown level reads "Unavailable" — or "N/A" while charging, because the
      charging text takes precedence over the missing level. */
  lemma BatteryLineOfPolledStatus(level: Option<int>, charging: Option<bool>)
    ensures var line := BatteryLine(level, Some(PollingService.BatteryStatusText(level, charging)));
      var levelText := if level.Some? then IntToString(level.value) + "%" else "";
      (level.Some? && charging == Some(true) ==> line == "Battery: " + levelText + " (Charging)") &&
      (level == Some(100) && charging != Some(true) ==> line == "Battery: " + levelText + " (Full)" && levelText == "100%") &&
      (level.Some? && level.value != 100 && charging != Some(true) ==> line == "Battery: " + levelText) &&
      (level.None? && charging != Some(true) ==> line == "Battery: Unavailable") &&
      (level.None? && charging == Some(true) ==> line == "Battery: N/A")
  {
    var text := PollingService.BatteryStatusText(level, charging);
    if charging == Some(true) {
      assert text == "BATTERY_CHARGING";
    } else if level == Some(100) {
      assert text == "BATTERY_FULL";
      assert IntToString(100) == "100";
    } else if level.Some? {
      assert text == "BATTERY_AVAILABLE";
    } else {
      assert text == "BATTERY_UNAVAILABLE";
    }
  }
}
