/**
 * The generators behind disabling the board's status LEDs on Armbian: the
 * persistent LED configuration, the sysfs commands that apply it now, the
 * optional backup of the current state and the systemd unit restoring it at boot.
 */
module LedDisable {
  import opened Wrappers
  import opened Text
  import opened Lines
  import opened UnitFiles

  /** One LED: its sysfs name and directory. */
  datatype Led = Led(name: string, path: string)

  /** Where the kernel lists the LEDs. */
  const LedClassDir := "/sys/class/leds/"

  /** The LED named `name` under the LED class directory. */
  function ClassLed(name: string): Led {
    Led(name, LedClassDir + name)
  }

  /** The status LEDs of the board: `/sys/class/leds/blue_led` and `/sys/class/leds/green_led`. */
  const SbcLeds: seq<Led> := [ClassLed("blue_led"), ClassLed("green_led")]

  const LedConfigFile := "/etc/armbian-leds.conf"
  const LedRestoreScript := "/usr/lib/armbian/" + "armbian-led-state-restore.sh"
  const ConfigHeader := "# SBC LED configuration" + " - disabled by pyinfra"

  // ---------------------------------------------------------------- configuration file

  /** The section appended for one LED: a blank line, `[path]`, `trigger=none`, a blank line. */
  function Section(path: string): string {
    "\n[" + path + "]\ntrigger=none\n\n"
  }

  /** The text appended to the header, one section per LED in order. */
  function Sections(leds: seq<Led>): string {
    if leds == [] then "" else Sections(leds[..|leds| - 1]) + Section(leds[|leds| - 1].path)
  }

  /**
   * `_generate_led_config` for the given LEDs: the header line, then a section
   * per LED, which is the configuration's lines each ended by a newline.
   */
  function LedConfig(leds: seq<Led>): (r: string)
    ensures r == Unlines(ConfigLines(leds))
  {
    SectionsAreLines(leds);
    ConfigHeader + "\n" + Sections(leds)
  }

  /** The four lines of one LED's section. */
  function SectionLines(path: string): seq<string> {
    ["", "[" + path + "]", "trigger=none", ""]
  }

  /** The lines of the configuration: the header, then four per LED. */
  function ConfigLines(leds: seq<Led>): (r: seq<string>)
    ensures |r| == 1 + 4 * |leds| && r[0] == ConfigHeader
  {
    if leds == [] then [ConfigHeader]
    else ConfigLines(leds[..|leds| - 1]) + SectionLines(leds[|leds| - 1].path)
  }

  lemma SectionIsUnlines(path: string)
    ensures Section(path) == Unlines(SectionLines(path))
  {
    var h := "[" + path + "]";
    Unlines4("", h, "trigger=none", "");
    SectionTail();
    SectionText(path);
  }

  lemma SectionTail()
    ensures "\n" + ("trigger=none" + "\n" + ("" + "\n")) == "\ntrigger=none\n\n"
  {
  }

  lemma SectionText(path: string)
    ensures "\n[" + path + "]\ntrigger=none\n\n" == "" + "\n" + (("[" + path + "]") + "\ntrigger=none\n\n")
  {
  }

  /** Four terminated lines. */
  lemma Unlines4(a: string, b: string, c: string, d: string)
    ensures Unlines([a, b, c, d]) == a + "\n" + (b + "\n" + (c + "\n" + (d + "\n")))
  {
    assert Unlines([d]) == d + "\n" + Unlines([]);
    assert [c, d][1..] == [d];
    assert Unlines([c, d]) == c + "\n" + Unlines([d]);
    assert [b, c, d][1..] == [c, d];
    assert Unlines([b, c, d]) == b + "\n" + Unlines([c, d]);
    assert [a, b, c, d][1..] == [b, c, d];
  }

  /** The header and the sections are exactly the configuration's lines, each ended by a newline. */
  lemma {:induction false} SectionsAreLines(leds: seq<Led>)
    ensures ConfigHeader + "\n" + Sections(leds) == Unlines(ConfigLines(leds))
  {
    if leds == [] {
      assert Unlines([ConfigHeader]) == ConfigHeader + "\n" + Unlines([]);
      assert ConfigHeader + "\n" + "" == ConfigHeader + "\n";
    } else {
      var init := leds[..|leds| - 1];
      var path := leds[|leds| - 1].path;
      SectionsAreLines(init);
      UnlinesAppend(ConfigLines(init), SectionLines(path));
      SectionIsUnlines(path);
    }
  }

  /** LED `i`'s section occupies lines `1 + 4i` to `4 + 4i`, with its path in brackets then `trigger=none`. */
  lemma {:induction false} SectionOfLed(leds: seq<Led>, i: nat)
    requires i < |leds|
    ensures var ls := ConfigLines(leds);
      ls[1 + 4 * i .. 5 + 4 * i] == SectionLines(leds[i].path)
    decreases |leds|
  {
    var init := leds[..|leds| - 1];
    var last := SectionLines(leds[|leds| - 1].path);
    if i < |init| {
      SectionOfLed(init, i);
      assert init[i] == leds[i];
      SliceOfLeft(ConfigLines(init), last, 1 + 4 * i, 5 + 4 * i);
    } else {
      SliceOfRight(ConfigLines(init), last);
    }
  }

  /** The paths of the LEDs, in order. */
  function Paths(leds: seq<Led>): (r: seq<string>)
    ensures |r| == |leds| && forall i :: 0 <= i < |leds| ==> r[i] == leds[i].path
  {
    if leds == [] then [] else Paths(leds[..|leds| - 1]) + [leds[|leds| - 1].path]
  }

  /** The bracketed names of the `[section]` lines, in order. */
  function SectionNames(lines: seq<string>): seq<string> {
    if lines == [] then []
    else
      var l := lines[|lines| - 1];
      SectionNames(lines[..|lines| - 1])
        + (if |l| >= 2 && l[0] == '[' && l[|l| - 1] == ']' then [l[1..|l| - 1]] else [])
  }

  lemma {:induction false} SectionNamesAppend(a: seq<string>, b: seq<string>)
    ensures SectionNames(a + b) == SectionNames(a) + SectionNames(b)
    decreases |b|
  {
    if b == [] {
      assert a + b == a;
    } else {
      var bi := b[..|b| - 1];
      assert (a + b)[..|a + b| - 1] == a + bi;
      SectionNamesAppend(a, bi);
    }
  }

  lemma SectionLinesName(path: string)
    ensures SectionNames(SectionLines(path)) == [path]
  {
    var ls := SectionLines(path);
    var h := "[" + path + "]";
    assert h[1..|h| - 1] == path;
    assert ls[..1] == [""] && ls[..1][..0] == [];
    assert SectionNames(ls[..1]) == [];
    assert ls[..2][..1] == ls[..1] && ls[..2][1] == h;
    assert SectionNames(ls[..2]) == [path];
    assert ls[..3][..2] == ls[..2] && ls[..3][2] == "trigger=none";
    assert SectionNames(ls[..3]) == [path];
    assert ls[..3] == ls[..|ls| - 1];
  }

  /**
   * Reading the configuration back: its lines are the header and each LED's
   * section, and the section names are the LED paths in order.
   */
  lemma {:induction false} ConfigReadsBack(leds: seq<Led>)
    requires forall i :: 0 <= i < |leds| ==> NoLineBreak(leds[i].path)
    ensures SplitLines(LedConfig(leds)) == ConfigLines(leds)
    ensures SectionNames(ConfigLines(leds)) == Paths(leds)
  {
    ConfigLinesClean(leds);
    SplitUnlines(ConfigLines(leds));
    ConfigSectionNames(leds);
  }

  lemma {:induction false} ConfigSectionNames(leds: seq<Led>)
    ensures SectionNames(ConfigLines(leds)) == Paths(leds)
  {
    if leds == [] {
      assert [ConfigHeader][..0] == [];
      assert ConfigHeader[0] == '#';
    } else {
      var init := leds[..|leds| - 1];
      var path := leds[|leds| - 1].path;
      ConfigSectionNames(init);
      SectionNamesAppend(ConfigLines(init), SectionLines(path));
      SectionLinesName(path);
    }
  }

  lemma {:induction false} ConfigLinesClean(leds: seq<Led>)
    requires forall i :: 0 <= i < |leds| ==> NoLineBreak(leds[i].path)
    ensures forall k :: 0 <= k < |ConfigLines(leds)| ==> NoLineBreak(ConfigLines(leds)[k])
  {
    if leds == [] {
      HeaderClean();
    } else {
      var init := leds[..|leds| - 1];
      var path := leds[|leds| - 1].path;
      ConfigLinesClean(init);
      NoLineBreakAppend("[", path);
      NoLineBreakAppend("[" + path, "]");
      var ls := ConfigLines(leds);
      forall k | 0 <= k < |ls| ensures NoLineBreak(ls[k]) {
        if k < |ConfigLines(init)| {
          assert ls[k] == ConfigLines(init)[k];
        } else {
          assert ls[k] == SectionLines(path)[k - |ConfigLines(init)|];
        }
      }
    }
  }

  lemma HeaderClean()
    ensures NoLineBreak(ConfigHeader)
  {
    HeaderStartClean();
    HeaderEndClean();
    NoLineBreakAppend("# SBC LED configuration", " - disabled by pyinfra");
  }

  lemma HeaderStartClean()
    ensures NoLineBreak("# SBC LED configuration")
  {
  }

  lemma HeaderEndClean()
    ensures NoLineBreak(" - disabled by pyinfra")
  {
  }

  /** The configuration for this board's LEDs names the blue LED's section, then the green one's. */
  lemma SbcLedSections()
    ensures SectionNames(SplitLines(LedConfig(SbcLeds))) == [LedClassDir + "blue_led", LedClassDir + "green_led"]
  {
    SbcLedPathsClean();
    ConfigReadsBack(SbcLeds);
    var ps := Paths(SbcLeds);
    assert |ps| == 2 && ps[0] == SbcLeds[0].path && ps[1] == SbcLeds[1].path;
  }

  lemma SbcLedPathsClean()
    ensures forall i :: 0 <= i < |SbcLeds| ==> NoLineBreak(SbcLeds[i].path)
  {
    LedNamesClean();
    NoLineBreakAppend(LedClassDir, "blue_led");
    NoLineBreakAppend(LedClassDir, "green_led");
  }

  lemma LedNamesClean()
    ensures NoLineBreak(LedClassDir) && NoLineBreak("blue_led") && NoLineBreak("green_led")
  {
  }

  // ---------------------------------------------------------------- commands

  const BestEffort := " 2>/dev/null || true"

  /** The sysfs attributes of an LED the commands write. */
  datatype LedFile = Trigger | Brightness {
    function Name(): string {
      match this
      case Trigger => "/trigger"
      case Brightness => "/brightness"
    }
  }

  /** One shell command of the LED block: a best-effort write of `value` to an attribute, or a pause. */
  datatype LedStep = Write(path: string, file: LedFile, value: string) | Pause {
    /** The command line: `echo 'value' > path/file`, ignoring failure, or `sleep 0.1`. */
    function Command(): string {
      match this
      case Write(path, file, value) => "echo '" + value + "' > " + path + file.Name() + BestEffort
      case Pause => "sleep 0.1"
    }
  }

  /** The four commands for one LED: pulse the trigger on, pause, clear it, zero the brightness. */
  function LedBlock(path: string): seq<LedStep> {
    [Write(path, Trigger, "default-on"), Pause, Write(path, Trigger, "none"), Write(path, Brightness, "0")]
  }

  /** The commands applying the configuration now: four per LED, in LED order. */
  function LedCommands(leds: seq<Led>): (r: seq<LedStep>)
    ensures |r| == 4 * |leds|
  {
    if leds == [] then [] else LedCommands(leds[..|leds| - 1]) + LedBlock(leds[|leds| - 1].path)
  }

  /** Commands `4i` to `4i + 3` are LED `i`'s block. */
  lemma {:induction false} CommandsOfLed(leds: seq<Led>, i: nat)
    requires i < |leds|
    ensures LedCommands(leds)[4 * i .. 4 * i + 4] == LedBlock(leds[i].path)
    decreases |leds|
  {
    var init := leds[..|leds| - 1];
    var last := LedBlock(leds[|leds| - 1].path);
    if i < |init| {
      CommandsOfLed(init, i);
      assert init[i] == leds[i];
      SliceOfLeft(LedCommands(init), last, 4 * i, 4 * i + 4);
    } else {
      SliceOfRight(LedCommands(init), last);
    }
  }

  /** Every write ignores failure: its command line ends in `2>/dev/null || true`. */
  lemma WriteIsBestEffort(step: LedStep)
    requires step.Write?
    ensures EndsWith(step.Command(), BestEffort)
  {
    var c := step.Command();
    var pre := "echo '" + step.value + "' > " + step.path + step.file.Name();
    assert c == pre + BestEffort;
    assert c[|c| - |BestEffort|..] == BestEffort;
  }

  /** `step` writes attribute `file` of `path`. */
  predicate Writes(step: LedStep, path: string, file: LedFile) {
    step.Write? && step.path == path && step.file == file
  }

  /** The value the last write to attribute `file` of `path` leaves there, if any write does. */
  function FinalValue(steps: seq<LedStep>, path: string, file: LedFile): Option<string> {
    if steps == [] then None
    else
      var last := steps[|steps| - 1];
      if Writes(last, path, file) then Some(last.value) else FinalValue(steps[..|steps| - 1], path, file)
  }

  /** The final value is the one the last write stores, and there is none when nothing writes. */
  lemma {:induction false} FinalValueIsLastWrite(steps: seq<LedStep>, path: string, file: LedFile)
    ensures var r := FinalValue(steps, path, file);
      && (r.None? <==> forall k :: 0 <= k < |steps| ==> !Writes(steps[k], path, file))
      && (r.Some? ==> exists k :: 0 <= k < |steps| && steps[k] == Write(path, file, r.value) &&
                                  forall j :: k < j < |steps| ==> !Writes(steps[j], path, file))
    decreases |steps|
  {
    if steps != [] {
      var init, last := steps[..|steps| - 1], steps[|steps| - 1];
      var k := |steps| - 1;
      if Writes(last, path, file) {
        assert steps[k] == Write(path, file, last.value);
      } else {
        FinalValueIsLastWrite(init, path, file);
        assert forall j :: 0 <= j < |init| ==> init[j] == steps[j];
      }
    }
  }

  /** A later write wins: the steps after a prefix decide the final value when they write at all. */
  lemma {:induction false} FinalValueAppend(a: seq<LedStep>, b: seq<LedStep>, path: string, file: LedFile)
    ensures FinalValue(a + b, path, file) ==
      if FinalValue(b, path, file).Some? then FinalValue(b, path, file) else FinalValue(a, path, file)
    decreases |b|
  {
    if b == [] {
      assert a + b == a;
    } else {
      assert (a + b)[..|a + b| - 1] == a + b[..|b| - 1];
      FinalValueAppend(a, b[..|b| - 1], path, file);
    }
  }

  /** After an LED's block its trigger is `none` and its brightness `0`. */
  lemma BlockLeavesOff(path: string)
    ensures FinalValue(LedBlock(path), path, Trigger) == Some("none")
    ensures FinalValue(LedBlock(path), path, Brightness) == Some("0")
  {
    var b := LedBlock(path);
    assert b[..3] == [Write(path, Trigger, "default-on"), Pause, Write(path, Trigger, "none")];
  }

  /** A block writes nothing of another LED. */
  lemma BlockLeavesOthers(path: string, other: string, file: LedFile)
    requires other != path
    ensures FinalValue(LedBlock(path), other, file) == None
  {
    var b := LedBlock(path);
    assert forall k :: 0 <= k < |b| ==> !Writes(b[k], other, file);
    FinalValueIsLastWrite(b, other, file);
  }

  /**
   * Once the commands have run, every listed LED has trigger `none` and
   * brightness `0`, whatever the order of the LEDs and even if two share a path.
   */
  lemma {:induction false} CommandsLeaveLedsOff(leds: seq<Led>, i: nat)
    requires i < |leds|
    ensures FinalValue(LedCommands(leds), leds[i].path, Trigger) == Some("none")
    ensures FinalValue(LedCommands(leds), leds[i].path, Brightness) == Some("0")
    decreases |leds|
  {
    var init := leds[..|leds| - 1];
    var path := leds[|leds| - 1].path;
    var p := leds[i].path;
    FinalValueAppend(LedCommands(init), LedBlock(path), p, Trigger);
    FinalValueAppend(LedCommands(init), LedBlock(path), p, Brightness);
    if p == path {
      BlockLeavesOff(path);
    } else {
      BlockLeavesOthers(path, p, Trigger);
      BlockLeavesOthers(path, p, Brightness);
      assert i < |init| && init[i] == leds[i];
      CommandsLeaveLedsOff(init, i);
    }
  }

  /** The commands touch only the listed LEDs: an unlisted path keeps its attributes. */
  lemma {:induction false} CommandsLeaveOthers(leds: seq<Led>, other: string, file: LedFile)
    requires forall i :: 0 <= i < |leds| ==> leds[i].path != other
    ensures FinalValue(LedCommands(leds), other, file) == None
    decreases |leds|
  {
    if leds != [] {
      var init := leds[..|leds| - 1];
      var path := leds[|leds| - 1].path;
      FinalValueAppend(LedCommands(init), LedBlock(path), other, file);
      BlockLeavesOthers(path, other, file);
      forall i | 0 <= i < |init| ensures init[i].path != other {
        assert init[i] == leds[i];
      }
      CommandsLeaveOthers(init, other, file);
    }
  }

  // ---------------------------------------------------------------- backup and restore unit

  /** Two words joined by a space split back into the two. */
  lemma TwoWords(a: string, b: string)
    requires IsWord(a) && IsWord(b)
    ensures Words(a + " " + b) == [a, b]
  {
    var ws := [a, b];
    assert Join(ws[1..], " ") == b;
    assert Join(ws, " ") == a + " " + b;
    WordsJoin(ws);
  }

  lemma ScriptPrefixNoSpace()
    ensures NoSpace("/usr/lib/armbian/")
  {
  }

  lemma ScriptNameNoSpace()
    ensures NoSpace("armbian-led-state-restore.sh")
  {
  }

  lemma ScriptIsWord()
    ensures IsWord(LedRestoreScript)
  {
    ScriptPrefixNoSpace();
    ScriptNameNoSpace();
    NoSpaceAppend("/usr/lib/armbian/", "armbian-led-state-restore.sh");
  }

  lemma ConfigFileIsWord()
    ensures IsWord(LedConfigFile) && IsWord(LedConfigFile + ".backup")
  {
    assert NoSpace(LedConfigFile) && NoSpace(".backup");
    NoSpaceAppend(LedConfigFile, ".backup");
  }

  const BackupCommand := LedRestoreScript + " " + LedConfigFile + ".backup"

  /** The backup command runs only when Armbian's restore script is installed. */
  function BackupCommands(restoreScriptExists: bool): (r: seq<string>)
    ensures r != [] <==> restoreScriptExists
    ensures forall k :: 0 <= k < |r| ==> r[k] == BackupCommand
  {
    if restoreScriptExists then [BackupCommand] else []
  }

  /** The backup command runs the restore script with the configuration's `.backup` file as its one argument. */
  lemma BackupCommandWords()
    ensures Words(BackupCommand) == [LedRestoreScript, LedConfigFile + ".backup"]
  {
    ScriptIsWord();
    ConfigFileIsWord();
    assert BackupCommand == LedRestoreScript + " " + (LedConfigFile + ".backup");
    TwoWords(LedRestoreScript, LedConfigFile + ".backup");
  }

  const RestoreCommand := LedRestoreScript + " " + LedConfigFile

  /** The restore command runs the restore script with the configuration file as its one argument. */
  lemma RestoreCommandWords()
    ensures Words(RestoreCommand) == [LedRestoreScript, LedConfigFile]
  {
    ScriptIsWord();
    ConfigFileIsWord();
    TwoWords(LedRestoreScript, LedConfigFile);
  }

  /** The lines of the restore unit. */
  const RestoreServiceLines: seq<string> := [
    "[Unit]",
    "Description=Restore SBC LED state",
    "After=local-fs.target",
    "ConditionPathExists=" + LedConfigFile,
    "",
    "[Service]",
    "Type=oneshot",
    "RemainAfterExit=true",
    "ExecStart=" + RestoreCommand,
    "TimeoutSec=10",
    "",
    "[Install]",
    "WantedBy=sysinit.target"
  ]

  /** `_generate_systemd_service`: the unit that restores the LED state at boot, read back line by line. */
  function RestoreService(): (r: string)
    ensures SplitLines(r) == RestoreServiceLines
  {
    RestoreLinesSplit();
    Unlines(RestoreServiceLines)
  }

  /**
   * The restore unit starts only when the configuration exists, and then runs
   * the restore script on the configuration file.
   */
  lemma RestoreServiceSettings()
    ensures Setting(SplitLines(RestoreService()), "ConditionPathExists") == Some(LedConfigFile)
    ensures Setting(SplitLines(RestoreService()), "ExecStart") == Some(RestoreCommand)
  {
    ConditionSetting();
    ExecStartSetting();
  }

  lemma RestoreLinesSplit()
    ensures SplitLines(Unlines(RestoreServiceLines)) == RestoreServiceLines
  {
    var ls := RestoreServiceLines;
    forall k | 0 <= k < |ls| ensures NoLineBreak(ls[k]) {
      RestoreLineClean(k);
    }
    SplitUnlines(ls);
  }

  lemma ConditionSetting()
    ensures Setting(RestoreServiceLines, "ConditionPathExists") == Some(LedConfigFile)
  {
    var ls := RestoreServiceLines;
    forall j | 0 <= j < 3 ensures !StartsWith(ls[j], "ConditionPathExists=") {
      NotStartsWith(ls[j], "ConditionPathExists=");
    }
    SettingAt(ls, "ConditionPathExists", 3, LedConfigFile);
  }

  lemma ExecStartSetting()
    ensures Setting(RestoreServiceLines, "ExecStart") == Some(RestoreCommand)
  {
    var ls := RestoreServiceLines;
    forall j | 0 <= j < 8 ensures !StartsWith(ls[j], "ExecStart=") {
      NotStartsWith(ls[j], "ExecStart=");
    }
    SettingAt(ls, "ExecStart", 8, RestoreCommand);
  }

  lemma RestoreLineClean(k: nat)
    requires k < |RestoreServiceLines|
    ensures NoLineBreak(RestoreServiceLines[k])
  {
    if k == 3 {
      ConditionLineClean();
    } else if k == 8 {
      ExecStartLineClean();
    } else if k == 1 {
      DescriptionLineClean();
    } else if k < 3 {
      UnitLinesClean();
    } else if k < 8 {
      ServiceLinesClean();
    } else {
      InstallLinesClean();
    }
  }

  lemma DescriptionLineClean()
    ensures NoLineBreak(RestoreServiceLines[1])
  {
  }

  lemma UnitLinesClean()
    ensures NoLineBreak(RestoreServiceLines[0]) && NoLineBreak(RestoreServiceLines[2])
  {
  }

  lemma ServiceLinesClean()
    ensures forall k :: 4 <= k < 8 ==> NoLineBreak(RestoreServiceLines[k])
  {
  }

  lemma InstallLinesClean()
    ensures forall k :: 9 <= k < 13 ==> NoLineBreak(RestoreServiceLines[k])
  {
  }

  lemma ConditionLineClean()
    ensures NoLineBreak("ConditionPathExists=" + LedConfigFile)
  {
    assert NoLineBreak("ConditionPathExists=") && NoLineBreak(LedConfigFile);
    NoLineBreakAppend("ConditionPathExists=", LedConfigFile);
  }

  lemma ExecStartLineClean()
    ensures NoLineBreak("ExecStart=" + RestoreCommand)
  {
    ScriptIsWord();
    ConfigFileIsWord();
    WordLine("ExecStart=", LedRestoreScript, LedConfigFile);
    assert "ExecStart=" + RestoreCommand == "ExecStart=" + LedRestoreScript + " " + LedConfigFile;
  }

  /** A key followed by two words has no line break. */
  lemma WordLine(key: string, a: string, b: string)
    requires NoLineBreak(key) && IsWord(a) && IsWord(b)
    ensures NoLineBreak(key + a + " " + b)
  {
    NoSpaceNoLineBreak(a);
    NoSpaceNoLineBreak(b);
    NoLineBreakAppend(key, a);
    NoLineBreakAppend(key + a, " ");
    NoLineBreakAppend(key + a + " ", b);
  }
}
