/** The report codec of `src/headsetcontrol_tray/headset_status.py`: `HeadsetStatusParser`
    reads the 8-byte status report (battery bucket, charging/offline byte, ChatMix dials) and
    `HeadsetCommandEncoder` builds the output reports for sidetone, inactive timeout, a
    custom EQ curve and a hardware EQ preset. Both classes are stateless, so they are
    modelled as functions. */
module HeadsetStatus {
  import opened Prelude
  import opened AppConfig

  /** The dictionary `parse_status_report` returns. */
  datatype StatusReport = StatusReport(
    headsetOnline: bool,
    batteryPercent: Option<int>,
    batteryCharging: Option<bool>,
    chatmix: Option<int>,
    rawBatteryStatusByte: byte)

  // ---- HeadsetStatusParser ----

  /** `_determine_headset_online_status`: a short report reads as offline. */
  function HeadsetOnline(data: seq<byte>): (online: bool)
    ensures online <==> |data| > HidResStatusBatteryStatusByte && data[HidResStatusBatteryStatusByte] != 0
  {
    if |data| <= HidResStatusBatteryStatusByte then false
    else data[HidResStatusBatteryStatusByte] != 0x00
  }

  /** The battery-level byte read as a percentage: five buckets of 25%, anything else
      unknown. */
  function BatteryLevelPercent(raw: byte): (percent: Option<int>)
    ensures percent.Some? <==> raw <= 4
    ensures percent.Some? ==> percent.value == 25 * raw
  {
    if raw == 0x00 then Some(0)
    else if raw == 0x01 then Some(25)
    else if raw == 0x02 then Some(50)
    else if raw == 0x03 then Some(75)
    else if raw == 0x04 then Some(100)
    else None
  }

  /** `_parse_battery_info`: (battery_percent, battery_charging). */
  function BatteryInfo(data: seq<byte>, isOnline: bool): (info: (Option<int>, Option<bool>))
    ensures !isOnline || |data| <= HidResStatusBatteryStatusByte ==> info == (None, None)
    ensures isOnline && |data| > HidResStatusBatteryStatusByte ==>
      info == (BatteryLevelPercent(data[HidResStatusBatteryLevelByte]),
               Some(data[HidResStatusBatteryStatusByte] == 0x01))
  {
    if !isOnline then (None, None)
    else if |data| <= Max(HidResStatusBatteryLevelByte, HidResStatusBatteryStatusByte) then (None, None)
    else
      (BatteryLevelPercent(data[HidResStatusBatteryLevelByte]),
       Some(data[HidResStatusBatteryStatusByte] == 0x01))
  }

  /** `int((game / 100.0) * 64.0)` for the clamped game dial. */
  function MappedGame(game: byte): int {
    TruncDiv(Clamp(game, 0, 100) * 64, 100)
  }

  /** `int((chat / 100.0) * -64.0)` for the clamped chat dial (truncation toward zero). */
  function MappedChat(chat: byte): int {
    TruncDiv(Clamp(chat, 0, 100) * -64, 100)
  }

  /** The ChatMix value before its final clamp: 64 is centred, 0 full game, 128 full chat. */
  function UnclampedChatmix(game: byte, chat: byte): int {
    64 - (MappedChat(chat) + MappedGame(game))
  }

  /** `_parse_chatmix_info` on the two dial bytes. */
  function ChatmixValue(game: byte, chat: byte): (v: int)
    ensures 0 <= v <= 128
  {
    Clamp(UnclampedChatmix(game, chat), 0, 128)
  }

  /** `_parse_chatmix_info`: None offline or for a report too short to hold both dials. */
  function ChatmixInfo(data: seq<byte>, isOnline: bool): (chatmix: Option<int>)
    ensures chatmix.Some? <==> isOnline && |data| > HidResStatusChatmixChatByte
    ensures chatmix.Some? ==>
      chatmix.value == ChatmixValue(data[HidResStatusChatmixGameByte], data[HidResStatusChatmixChatByte])
  {
    if !isOnline then None
    else if |data| <= Max(HidResStatusChatmixGameByte, HidResStatusChatmixChatByte) then None
    else Some(ChatmixValue(data[HidResStatusChatmixGameByte], data[HidResStatusChatmixChatByte]))
  }

  /** `parse_status_report`. */
  function ParseStatusReport(data: seq<byte>): (r: Option<StatusReport>)
    ensures r.None? <==> |data| < HidInputReportLengthStatus
    ensures r.Some? ==>
      r.value.rawBatteryStatusByte == data[HidResStatusBatteryStatusByte] &&
      (r.value.headsetOnline <==> data[HidResStatusBatteryStatusByte] != 0x00)
    ensures r.Some? && !r.value.headsetOnline ==>
      r.value.batteryPercent.None? && r.value.batteryCharging.None? && r.value.chatmix.None?
    ensures r.Some? && r.value.headsetOnline ==>
      r.value.batteryPercent == BatteryLevelPercent(data[HidResStatusBatteryLevelByte]) &&
      r.value.batteryCharging == Some(data[HidResStatusBatteryStatusByte] == 0x01) &&
      r.value.chatmix == Some(ChatmixValue(data[HidResStatusChatmixGameByte], data[HidResStatusChatmixChatByte]))
  {
    if data == [] || |data| < HidInputReportLengthStatus then None
    else
      var online := HeadsetOnline(data);
      var battery := BatteryInfo(data, online);
      Some(StatusReport(
        online, battery.0, battery.1, ChatmixInfo(data, online),
        data[HidResStatusBatteryStatusByte]))
  }

  /** Scaling down by 100 is monotone. */
  lemma DivMonotone(a: int, b: int)
    requires 0 <= a <= b
    ensures a / 100 <= b / 100
  {
    DivisionBounds(a, 100);
    DivisionBounds(b, 100);
  }

  /** ChatMix in closed form: 64, plus the chat share, minus the game share, each dial
      first clamped to 0..100 and scaled down to 0..64. */
  lemma ChatmixClosedForm(game: byte, chat: byte)
    ensures MappedGame(game) == Clamp(game, 0, 100) * 64 / 100
    ensures MappedChat(chat) == -(Clamp(chat, 0, 100) * 64 / 100)
    ensures 0 <= MappedGame(game) <= 64 && -64 <= MappedChat(chat) <= 0
    ensures UnclampedChatmix(game, chat) ==
      64 + Clamp(chat, 0, 100) * 64 / 100 - Clamp(game, 0, 100) * 64 / 100
  {
    var g, c := Clamp(game, 0, 100), Clamp(chat, 0, 100);
    assert TruncDiv(c * -64, 100) == -((c * 64) / 100) by {
      assert -(c * -64) == c * 64;
    }
    DivMonotone(g * 64, 100 * 64);
    DivMonotone(c * 64, 100 * 64);
  }

  /** The final `max(0, min(128, ...))` of `_parse_chatmix_info` never changes the value. */
  lemma ChatmixClampIsIdentity(game: byte, chat: byte)
    ensures 0 <= UnclampedChatmix(game, chat) <= 128
    ensures ChatmixValue(game, chat) == UnclampedChatmix(game, chat)
  {
    ChatmixClosedForm(game, chat);
  }

  /** Swapping the two dials mirrors the value about the centre 64. */
  lemma ChatmixMirror(game: byte, chat: byte)
    ensures ChatmixValue(game, chat) + ChatmixValue(chat, game) == 128
  {
    ChatmixClamp2(game, chat);
    ChatmixClosedForm(game, chat);
    ChatmixClosedForm(chat, game);
  }

  lemma ChatmixClamp2(game: byte, chat: byte)
    ensures ChatmixValue(game, chat) == UnclampedChatmix(game, chat)
    ensures ChatmixValue(chat, game) == UnclampedChatmix(chat, game)
  {
    ChatmixClampIsIdentity(game, chat);
    ChatmixClampIsIdentity(chat, game);
  }

  /** Turning the game dial up moves the value toward 0 (game); turning the chat dial up
      moves it toward 128 (chat). */
  lemma ChatmixMonotone(game1: byte, game2: byte, chat1: byte, chat2: byte)
    requires game1 <= game2 && chat1 >= chat2
    ensures ChatmixValue(game1, chat1) >= ChatmixValue(game2, chat2)
  {
    ChatmixClampIsIdentity(game1, chat1);
    ChatmixClampIsIdentity(game2, chat2);
    ChatmixClosedForm(game1, chat1);
    ChatmixClosedForm(game2, chat2);
    DivMonotone(Clamp(game1, 0, 100) * 64, Clamp(game2, 0, 100) * 64);
    DivMonotone(Clamp(chat2, 0, 100) * 64, Clamp(chat1, 0, 100) * 64);
  }

  /** Dial positions at or above 100 all read as 100. */
  lemma ChatmixSaturates(game: byte, chat: byte)
    ensures ChatmixValue(game, chat) == ChatmixValue(Min(game, 100), Min(chat, 100))
  {
    ChatmixClosedForm(game, chat);
    ChatmixClosedForm(Min(game, 100), Min(chat, 100));
  }

  /** The documented dial positions. */
  lemma ChatmixPinnedCases()
    ensures ChatmixValue(100, 0) == 0 && ChatmixValue(0, 100) == 128
    ensures ChatmixValue(50, 50) == 64 && ChatmixValue(0, 0) == 64
    ensures ChatmixValue(75, 25) == 32 && ChatmixValue(25, 75) == 96
  {
    assert MappedGame(0) == 0 && MappedGame(25) == 16 && MappedGame(50) == 32;
    assert MappedGame(75) == 48 && MappedGame(100) == 64;
    assert MappedChat(0) == 0 && MappedChat(25) == -16 && MappedChat(50) == -32;
    assert MappedChat(75) == -48 && MappedChat(100) == -64;
  }

  /** The parse looks only at bytes 2 to 5 (and at the length). */
  lemma ParseReadsOnlyStatusBytes(data1: seq<byte>, data2: seq<byte>)
    requires |data1| >= HidInputReportLengthStatus && |data2| >= HidInputReportLengthStatus
    requires data1[2..6] == data2[2..6]
    ensures ParseStatusReport(data1) == ParseStatusReport(data2)
  {
    assert data1[2] == data1[2..6][0] && data2[2] == data2[2..6][0];
    assert data1[3] == data1[2..6][1] && data2[3] == data2[2..6][1];
    assert data1[4] == data1[2..6][2] && data2[4] == data2[2..6][2];
    assert data1[5] == data1[2..6][3] && data2[5] == data2[2..6][3];
  }

  /** A charging report is an online report with a known-or-unknown level and a ChatMix. */
  lemma ChargingImpliesOnline(data: seq<byte>)
    requires ParseStatusReport(data).Some? && ParseStatusReport(data).value.batteryCharging == Some(true)
    ensures ParseStatusReport(data).value.headsetOnline
    ensures data[HidResStatusBatteryStatusByte] == 0x01
    ensures ParseStatusReport(data).value.chatmix.Some?
  {
  }

  // ---- HeadsetCommandEncoder ----

  /** How the headset reads an output report: the two-byte prefix names the command and the
      remaining bytes are its argument (one byte, or ten EQ bands and a slot byte). This is
      the layout the encoders write, stated on its own so that each encoder has an
      inverse. */
  datatype Command =
    | SetSidetone(level: byte)
    | SetInactiveTime(minutes: byte)
    | SetEqBands(bands: seq<byte>, slot: byte)

  function DecodeCommand(frame: seq<byte>): Option<Command> {
    if |frame| < 2 then None
    else if frame[..2] == HidCmdSetSidetonePrefix && |frame| == 3 then Some(SetSidetone(frame[2]))
    else if frame[..2] == HidCmdSetInactiveTimePrefix && |frame| == 3 then Some(SetInactiveTime(frame[2]))
    else if frame[..2] == HidCmdSetEqBandsPrefix && |frame| == 13 then Some(SetEqBands(frame[2..12], frame[12]))
    else None
  }

  /** The hardware sidetone step for a UI level: how many of the cut-offs 26, 51 and 76
      the level has reached. */
  function SidetoneStep(level: int): (step: byte)
    ensures step <= 3
    ensures step == (if level >= 26 then 1 else 0) + (if level >= 51 then 1 else 0) + (if level >= 76 then 1 else 0)
  {
    if level < 26 then 0x00
    else if level < 51 then 0x01
    else if level < 76 then 0x02
    else 0x03
  }

  lemma SidetoneStepMonotone(level1: int, level2: int)
    requires level1 <= level2
    ensures SidetoneStep(level1) <= SidetoneStep(level2)
  {
  }

  /** `encode_set_sidetone`. */
  function EncodeSetSidetone(level: int): (cmd: seq<byte>)
    ensures |cmd| == 3 && cmd[..2] == HidCmdSetSidetonePrefix
    ensures DecodeCommand(cmd) == Some(SetSidetone(SidetoneStep(level)))
  {
    HidCmdSetSidetonePrefix + [SidetoneStep(level)]
  }

  /** `encode_set_inactive_timeout`: the minutes are clamped to the hardware's 0..90. */
  function EncodeSetInactiveTimeout(minutes: int): (cmd: seq<byte>)
    ensures |cmd| == 3 && cmd[..2] == HidCmdSetInactiveTimePrefix
    ensures DecodeCommand(cmd) == Some(SetInactiveTime(cmd[2]))
    ensures 0 <= minutes <= 90 ==> cmd[2] == minutes
    ensures minutes < 0 ==> cmd[2] == 0
    ensures minutes > 90 ==> cmd[2] == 90
  {
    HidCmdSetInactiveTimePrefix + [Clamp(minutes, 0, 90)]
  }

  /** `int(0x14 + max(-10.0, min(10.0, v)))` before the hardware clamp. */
  function UnclampedEqBand(v: real): int {
    (20.0 + ClampReal(v, -10.0, 10.0)).Floor
  }

  /** One EQ band byte: 0x14 is 0 dB, one step per dB, the whole decibels of a value in
      -10..10 dB (saturating outside). */
  function EqBandByte(v: real): (b: byte)
    ensures 0x0A <= b <= 0x1E
    ensures -10.0 <= v <= 10.0 ==> (b as int - 20) as real <= v < (b as int - 19) as real
    ensures v <= -10.0 ==> b == 0x0A
    ensures v >= 10.0 ==> b == 0x1E
  {
    EqBandClampIsIdentity(v);
    Clamp(UnclampedEqBand(v), 0x0A, 0x1E)
  }

  /** The hardware clamp `max(0x0A, min(0x1E, ...))` never changes the band byte. */
  lemma EqBandClampIsIdentity(v: real)
    ensures 0x0A <= UnclampedEqBand(v) <= 0x1E
    ensures -10.0 <= v <= 10.0 ==> (UnclampedEqBand(v) - 20) as real <= v < (UnclampedEqBand(v) - 19) as real
  {
    var c := ClampReal(v, -10.0, 10.0);
    var f := (20.0 + c).Floor;
    assert f as real <= 20.0 + c < f as real + 1.0;
  }

  lemma EqBandByteMonotone(v1: real, v2: real)
    requires v1 <= v2
    ensures EqBandByte(v1) <= EqBandByte(v2)
  {
    var c1, c2 := ClampReal(v1, -10.0, 10.0), ClampReal(v2, -10.0, 10.0);
    assert c1 <= c2;
    var f1, f2 := (20.0 + c1).Floor, (20.0 + c2).Floor;
    assert f1 as real <= 20.0 + c1 <= 20.0 + c2 < f2 as real + 1.0;
  }

  /** The ten band bytes of a curve. */
  function EqBands(values: seq<real>): (bands: seq<byte>)
    ensures |bands| == |values|
    ensures forall i :: 0 <= i < |values| ==> bands[i] == EqBandByte(values[i])
  {
    seq(|values|, i requires 0 <= i < |values| => EqBandByte(values[i]))
  }

  /** `encode_set_eq_values`. Only a ten-band curve encodes, and then the length check
      before the slot byte always passes: its error branch cannot be taken. */
  function EncodeSetEqValues(values: seq<real>): (cmd: Option<seq<byte>>)
    ensures cmd.Some? <==> |values| == 10
    ensures cmd.Some? ==>
      |cmd.value| == 13 && cmd.value[..2] == HidCmdSetEqBandsPrefix && cmd.value[12] == 0x00 &&
      forall i :: 0 <= i < 10 ==> cmd.value[2 + i] == EqBandByte(values[i])
    ensures cmd.Some? ==> DecodeCommand(cmd.value) == Some(SetEqBands(EqBands(values), 0x00))
  {
    if |values| != 10 then None
    else
      var payload := HidCmdSetEqBandsPrefix + EqBands(values);
      if |payload| == |HidCmdSetEqBandsPrefix| + 10 then
        var cmd := payload + [0x00];
        assert cmd[2..12] == EqBands(values);
        Some(cmd)
      else None
  }

  /** Whole-decibel curves within -10..10 travel exactly: each band byte less 0x14 is the
      value the user set. */
  lemma EqWholeDecibelsRoundTrip(values: seq<int>)
    requires |values| == 10
    requires forall i :: 0 <= i < 10 ==> -10 <= values[i] <= 10
    ensures var cmd := EncodeSetEqValues(seq(10, i requires 0 <= i < 10 => values[i] as real));
      cmd.Some? && forall i :: 0 <= i < 10 ==> cmd.value[2 + i] as int - 0x14 == values[i]
  {
    var reals := seq(10, i requires 0 <= i < 10 => values[i] as real);
    var cmd := EncodeSetEqValues(reals);
    forall i | 0 <= i < 10
      ensures cmd.value[2 + i] as int - 0x14 == values[i]
    {
      var b := EqBandByte(reals[i]);
      assert (b as int - 20) as real <= values[i] as real < (b as int - 19) as real;
    }
  }

  /** `encode_set_eq_preset_id` on a preset table (the module constant is `HwPresets`;
      the table is a parameter so that malformed entries can be stated). */
  function EncodeSetEqPresetId(table: map<int, PresetEntry>, presetId: int): (cmd: Option<seq<byte>>)
    ensures cmd.Some? <==>
      presetId in table && table[presetId].values.Some? && |table[presetId].values.value| == 10
    ensures cmd.Some? ==> cmd == EncodeSetEqValues(table[presetId].values.value)
  {
    if presetId !in table then None
    else
      match table[presetId].values
      case None => None
      case Some(values) =>
        if |values| != 10 then None
        else EncodeSetEqValues(values)
  }

  /** The four shipped presets all encode; every other id is refused. */
  lemma ShippedPresetsEncode(presetId: int)
    ensures EncodeSetEqPresetId(HwPresets, presetId).Some? <==> 0 <= presetId <= 3
  {
    if 0 <= presetId <= 3 {
      assert presetId in HwPresets;
      assert |HwPresets[presetId].values.value| == 10;
    }
  }

  /** The band bytes of the half- and whole-decibel values the shipped presets use. */
  lemma HalfStepBandBytes()
    ensures EqBandByte(3.5) == 23 && EqBandByte(5.5) == 25 && EqBandByte(4.0) == 24
    ensures EqBandByte(1.0) == 21 && EqBandByte(-1.5) == 18 && EqBandByte(-1.0) == 19
  {
  }

  /** The shipped "Bass Boost (Hardware)" preset: half-decibel values lose their half. */
  lemma BassBoostPresetBytes()
    ensures EncodeSetEqPresetId(HwPresets, 1) ==
      Some([0x00, 0x33, 23, 25, 24, 21, 18, 18, 19, 19, 19, 19, 0x00])
  {
    BassBoostBands();
    SetEqValuesLayout(HwPresets[1].values.value);
    BassBoostLayout([23, 25, 24, 21, 18, 18, 19, 19, 19, 19]);
  }

  /** The Bass Boost band bytes between the command prefix and the slot byte. */
  lemma BassBoostLayout(bands: seq<byte>)
    requires bands == [23, 25, 24, 21, 18, 18, 19, 19, 19, 19]
    ensures [0x00, 0x33] + bands + [0x00] == [0x00, 0x33, 23, 25, 24, 21, 18, 18, 19, 19, 19, 19, 0x00]
  {
  }

  /** A ten-band curve encodes as the prefix, its band bytes and the slot byte. */
  lemma SetEqValuesLayout(values: seq<real>)
    requires |values| == 10
    ensures EncodeSetEqValues(values) == Some([0x00, 0x33] + EqBands(values) + [0x00])
  {
  }

  /** The band bytes of the "Bass Boost (Hardware)" curve. */
  lemma BassBoostBands()
    ensures HwPresets[1].values.Some? && |HwPresets[1].values.value| == 10
    ensures EqBands(HwPresets[1].values.value) == [23, 25, 24, 21, 18, 18, 19, 19, 19, 19]
  {
    var values := HwPresets[1].values.value;
    assert values == [3.5, 5.5, 4.0, 1.0, -1.5, -1.5, -1.0, -1.0, -1.0, -1.0];
    HalfStepBandBytes();
  }



}
