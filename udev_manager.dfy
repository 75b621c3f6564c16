/** `src/headsetcontrol_tray/udev_manager.py`: the text of the udev rules that give the
    logged-in user access to the headset's hidraw nodes, where that file belongs, and the
    temporary copy prepared for a privileged install. */
module UdevManager {
  import opened Prelude
  import opened AppConfig
  import opened OsApi

  /** `VID_HEX`: the vendor id as four lower-case hex digits. */
  function VidHex(): string {
    Hex04(SteelseriesVid)
  }

  const RulePrefix: string := "SUBSYSTEM==\"hidraw\", ATTRS{idVendor}==\"" + VidHex() + "\", ATTRS{idProduct}==\""
  const RuleSuffix: string := "\", TAG+=\"uaccess\""

  /** The rule for one product id. */
  function RuleLine(pid: nat): string {
    RulePrefix + Hex04(pid) + RuleSuffix
  }

  /** `RULE_LINES`: one rule per target product id, in order. */
  function RuleLines(): seq<string> {
    seq(|TargetPids|, i requires 0 <= i < |TargetPids| => RuleLine(TargetPids[i]))
  }

  /** `UDEV_RULE_CONTENT`: the rules joined by newlines, with a trailing newline. */
  function UdevRuleContent(): string {
    Join(RuleLines(), "\n") + "\n"
  }

  const UdevRuleFilename: string := "99-steelseries-headsets.rules"
  /** `Path("/etc/udev/rules.d/")`; a path drops its trailing slash. */
  const UdevRulesDir: string := "/etc/udev/rules.d"

  /** `get_final_rules_path()`: the rules directory joined with the file name. */
  function FinalRulesPath(): (path: string)
    ensures path == "/etc/udev/rules.d/" + UdevRuleFilename
  {
    assert UdevRulesDir + "/" == "/etc/udev/rules.d/";
    UdevRulesDir + "/" + UdevRuleFilename
  }

  /** The vendor id appears in the rules as "1038". */
  lemma VidHexIs1038()
    ensures VidHex() == "1038"
  {
    assert HexDigits(0x1038 / 16 / 16 / 16) == "1";
    assert HexDigits(0x1038 / 16 / 16) == "10";
    assert HexDigits(0x1038 / 16) == "103";
    assert HexDigits(0x1038) == "1038";
  }

  /** Each rule carries the vendor prefix and names its product id in four hex digits. */
  lemma RuleLineNamesPid(pid: nat)
    requires pid < 0x1_0000
    ensures RuleLine(pid)[..|RulePrefix|] == RulePrefix
    ensures RuleLine(pid)[|RulePrefix| + 4..] == RuleSuffix
    ensures HexValue(RuleLine(pid)[|RulePrefix|..|RulePrefix| + 4]) == pid
  {
    Hex04RoundTrip(pid);
    var line := RuleLine(pid);
    assert line[|RulePrefix|..|RulePrefix| + 4] == Hex04(pid);
  }

  /** There is one rule per target product id and each names its own id. */
  lemma RuleLinesCoverTargets()
    ensures |RuleLines()| == |TargetPids|
    ensures forall i :: 0 <= i < |RuleLines()| ==>
      RuleLines()[i][..|RulePrefix|] == RulePrefix &&
      HexValue(RuleLines()[i][|RulePrefix|..|RulePrefix| + 4]) == TargetPids[i]
  {
    forall i | 0 <= i < |RuleLines()|
      ensures RuleLines()[i][..|RulePrefix|] == RulePrefix
      ensures HexValue(RuleLines()[i][|RulePrefix|..|RulePrefix| + 4]) == TargetPids[i]
    {
      RuleLineNamesPid(TargetPids[i]);
    }
  }

  lemma LowerHexHasNoNewline(h: string)
    requires IsLowerHex(h)
    ensures '\n' !in h
  {
  }

  /** A line break in a joined string comes from one of its pieces. */
  lemma ConcatHasNoNewline(a: string, b: string, c: string)
    requires '\n' !in a && '\n' !in b && '\n' !in c
    ensures '\n' !in a + b + c
  {
    var s := a + b + c;
    forall i | 0 <= i < |s| ensures s[i] != '\n' {
      if i < |a| {
        assert s[i] == a[i];
      } else if i < |a| + |b| {
        assert s[i] == b[i - |a|];
      } else {
        assert s[i] == c[i - |a| - |b|];
      }
    }
  }

  lemma RulePrefixHasNoNewline()
    ensures '\n' !in RulePrefix
  {
    var front := "SUBSYSTEM==\"hidraw\", ATTRS{idVendor}==\"";
    var back := "\", ATTRS{idProduct}==\"";
    VidHexIs1038();
    assert '\n' !in front && '\n' !in back;
    ConcatHasNoNewline(front, VidHex(), back);
  }

  lemma RuleLineHasNoNewline(pid: nat)
    ensures '\n' !in RuleLine(pid)
  {
    RulePrefixHasNoNewline();
    LowerHexHasNoNewline(Hex04(pid));
    assert '\n' !in RuleSuffix;
    ConcatHasNoNewline(RulePrefix, Hex04(pid), RuleSuffix);
  }

  /** The content splits into exactly the rule lines followed by the empty piece after
      the trailing newline. */
  lemma UdevRuleContentLines()
    ensures UdevRuleContent()[|UdevRuleContent()| - 1] == '\n'
    ensures Split(UdevRuleContent(), '\n') == RuleLines() + [""]
  {
    RuleLinesHaveNoNewline(RuleLines());
    TerminatedLinesSplit(RuleLines());
  }

  /** Lines without a line break of their own, joined and terminated by newlines, split
      back into the lines and an empty last piece. */
  lemma TerminatedLinesSplit(lines: seq<string>)
    requires |lines| >= 1
    requires forall i :: 0 <= i < |lines| ==> '\n' !in lines[i]
    ensures (Join(lines, "\n") + "\n")[|Join(lines, "\n") + "\n"| - 1] == '\n'
    ensures Split(Join(lines, "\n") + "\n", '\n') == lines + [""]
  {
    var pieces := lines + [""];
    forall i | 0 <= i < |pieces| ensures '\n' !in pieces[i] {
      if i < |lines| {
        assert pieces[i] == lines[i];
      }
    }
    JoinSnoc(lines, "\n", "");
    assert Join(pieces, "\n") == Join(lines, "\n") + "\n";
    SplitJoin(pieces, '\n');
  }

  lemma RuleLinesHaveNoNewline(lines: seq<string>)
    requires lines == RuleLines()
    ensures forall i :: 0 <= i < |lines| ==> '\n' !in lines[i]
  {
    forall i | 0 <= i < |lines| ensures '\n' !in lines[i] {
      RuleLineHasNoNewline(TargetPids[i]);
    }
  }

  /** The record `create_rules_interactive` keeps after writing the temporary file: the
      dictionary with keys `temp_file_path`, `final_file_path`, `rule_filename` and
      `rule_content`, one field per key. */
  datatype SetupDetails = SetupDetails(
    tempFilePath: string, finalFilePath: string, ruleFilename: string, ruleContent: string)

  function DetailsFor(tempFilePath: string): (details: SetupDetails)
  {
    SetupDetails(tempFilePath, FinalRulesPath(), UdevRuleFilename, UdevRuleContent())
  }

  const TempPrefix: string := "headsetcontrol_tray_"
  const TempSuffix: string := ".rules"

  class UdevRulesManager {
    const tempFiles: TempFiles
    var lastUdevSetupDetails: Option<SetupDetails>

    /** No setup has been prepared in a new session. */
    constructor (tempFiles: TempFiles)
      ensures this.tempFiles == tempFiles
      ensures lastUdevSetupDetails == None
    {
      this.tempFiles := tempFiles;
      lastUdevSetupDetails := None;
    }

    /** `get_rule_content()`: one rule line per target product, newline-terminated. */
    function GetRuleContent(): (content: string)
      ensures Split(content, '\n') == RuleLines() + [""]
    {
      UdevRuleContentLines();
      UdevRuleContent()
    }

    /** `get_last_udev_setup_details()`. */
    function GetLastUdevSetupDetails(): (details: Option<SetupDetails>)
      reads this
      ensures details == lastUdevSetupDetails
    {
      lastUdevSetupDetails
    }

    /** `create_rules_interactive()`: discards the previous details, writes the rule
        content to a new temporary file and, if that succeeds, records where it is and
        where it must go. Any error leaves the details None. */
    method CreateRulesInteractive() returns (ok: bool)
      modifies this`lastUdevSetupDetails, tempFiles`files
      ensures ok <==> !tempFiles.failing
      ensures ok ==> lastUdevSetupDetails == Some(DetailsFor(tempFiles.NextName(TempPrefix, TempSuffix)))
      ensures ok ==> tempFiles.files == old(tempFiles.files)[tempFiles.NextName(TempPrefix, TempSuffix) := UdevRuleContent()]
      ensures !ok ==> lastUdevSetupDetails == None && tempFiles.files == old(tempFiles.files)
    {
      lastUdevSetupDetails := None;
      var name := tempFiles.WriteNamedTemporaryFile(TempPrefix, TempSuffix, GetRuleContent());
      if name.None? {
        lastUdevSetupDetails := None;
        return false;
      }
      lastUdevSetupDetails := Some(DetailsFor(name.value));
      return true;
    }

    /** `are_rules_installed()`: the rules file exists at its final path. */
    function AreRulesInstalled(fs: FileSystem): (installed: bool)
      reads fs
      ensures installed <==> "/etc/udev/rules.d/" + UdevRuleFilename in fs.existing
    {
      fs.Exists(FinalRulesPath())
    }
  }

  /** A prepared setup names the temporary file, the final path, the file name, and
      content made of exactly the rule lines. */
  lemma DetailsForContents(tempFilePath: string)
    ensures DetailsFor(tempFilePath).tempFilePath == tempFilePath
    ensures DetailsFor(tempFilePath).finalFilePath == "/etc/udev/rules.d/" + UdevRuleFilename
    ensures DetailsFor(tempFilePath).ruleFilename == "99-steelseries-headsets.rules"
    ensures Split(DetailsFor(tempFilePath).ruleContent, '\n') == RuleLines() + [""]
  {
    UdevRuleContentLines();
  }
}
