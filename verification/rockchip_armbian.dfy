/**
 * The verification checks for Rockchip boards running Armbian. Each check
 * asks the host one probe, a shell command given by `Command`; the host is a
 * parameter `shell` mapping each probe to the standard output its command
 * prints.
 */
module RockchipArmbian {
  import opened Wrappers
  import opened Text
  import opened Digits
  import opened PlatformTypes
  import opened VerifyTypes
  import opened CheckRunner
  import opened Overlays

  /** What a check asks the host; `Command` gives the shell command that asks it. */
  datatype Probe =
    | BootDevice
    | EmmcSize
    | PartitionPercent
    | RootUsage
    | LedTrigger(led: string)
    | EncoderCount
    | DeviceMode(device: string)
    | OverlayInstalled(id: string)
    | CockpitState

  /** One registered check: what `run_check` is called with, minus the shell. */
  datatype Check = Check(
    name: string,
    probe: Probe,
    judge: Option<string -> bool>,
    passMsg: string := "",
    failMsg: string := "")

  // ---------------------------------------------------------------- predicates

  predicate BootIsEmmc(x: string) {
    x == "mmcblk0"
  }

  predicate EmmcPresent(x: string) {
    x != "missing"
  }

  /** The filesystem fills at least 95% of its partition; non-numeric output fails. */
  predicate PartitionExpanded(x: string) {
    if IsDigits(x) then Value(x) >= 95 else false
  }

  /** Under 90% of the root filesystem is used; the `%` is stripped first. */
  predicate RootUsageOk(x: string) {
    var y := StripChar(x, '%');
    if IsDigits(y) then Value(y) < 90 else false
  }

  predicate LedOff(x: string) {
    x == "none"
  }

  /** At least two hardware encoders are listed; non-numeric output fails. */
  predicate EncodersPresent(x: string) {
    if IsDigits(x) then Value(x) >= 2 else false
  }

  /** The device node is a character device readable and writable by everyone. */
  predicate WorldReadWrite(x: string) {
    if x != "missing" then StartsWith(x, "crw-rw-rw-") else false
  }

  predicate CockpitActive(x: string) {
    x == "active"
  }

  // ---------------------------------------------------------------- registry

  const PartitionScript := @"
            root_part=$(findmnt -n -o SOURCE /)
            df_output=$(df -B1 $root_part | tail -1)
            fs_size=$(echo $df_output | awk '{print $2}')
            part_size=$(lsblk -b -n -o SIZE $root_part)
            if [ ""$part_size"" -gt 0 ] && [ ""$fs_size"" -gt 0 ]; then
                percent=$((fs_size * 100 / part_size))
                echo ""$percent""
            else
                echo ""0""
            fi
            "

  /** The shell command each probe runs. */
  function Command(p: Probe): string {
    match p
    case BootDevice => "lsblk -no PKNAME $(findmnt -n -o SOURCE /)"
    case EmmcSize => "test -b /dev/mmcblk0 && lsblk -dn -o SIZE /dev/mmcblk0 || echo 'missing'"
    case PartitionPercent => PartitionScript
    case RootUsage => "df / | tail -1 | awk '{print $5}'"
    case LedTrigger(led) =>
      "cat /sys/class/leds/" + led + "/trigger 2>/dev/null | grep -o '\\[.*\\]' | tr -d '[]' || echo 'error'"
    case EncoderCount => "ffmpeg -encoders 2>/dev/null | grep -c rkmpp || echo '0'"
    case DeviceMode(dev) => "ls -l " + dev + " 2>/dev/null | awk '{print $1}' || echo 'missing'"
    case OverlayInstalled(id) =>
      "ls /boot/overlay-user/" + id + ".dtbo 2>/dev/null && echo 'Installed' || echo 'Not installed'"
    case CockpitState => "systemctl is-active cockpit.socket 2>/dev/null || echo 'inactive'"
  }

  const BootCheck := Check("Boot device", BootDevice, Some(BootIsEmmc), "eMMC", "Not eMMC (" + Placeholder + ")")

  const EmmcCheck := Check("eMMC device", EmmcSize, Some(EmmcPresent), Placeholder, "Not found")

  const PartitionCheck := Check("Partition expansion", PartitionPercent,
    Some(PartitionExpanded), failMsg := "Not using full partition")

  const RootUsageCheck := Check("Root filesystem usage", RootUsage, Some(RootUsageOk), Placeholder,
    Placeholder + " (too high)")

  /** The check that the LED under `/sys/class/leds/<led>` has no trigger. */
  function LedCheck(name: string, led: string): Check {
    Check(name, LedTrigger(led), Some(LedOff), "Disabled", "LED is on")
  }

  const EncodersCheck := Check("FFmpeg encoders", EncoderCount, Some(EncodersPresent), Placeholder, Placeholder)

  /** The check that device node `dev` is world read-write. */
  function PermissionCheck(name: string, dev: string): Check {
    Check(name, DeviceMode(dev), Some(WorldReadWrite), "666", "Needs fix")
  }

  /** The ten fixed checks, in the order they run. */
  const FixedChecks: seq<Check> := [
    BootCheck, EmmcCheck, PartitionCheck, RootUsageCheck,
    LedCheck("Blue LED", "blue_led"), LedCheck("Green LED", "green_led"),
    EncodersCheck,
    PermissionCheck("MPP permissions", "/dev/mpp_service"),
    PermissionCheck("RGA permissions", "/dev/rga"),
    PermissionCheck("DMA heap permissions", "/dev/dma_heap/system")
  ]

  /** The informational check that an overlay's compiled blob is installed. */
  function OverlayCheck(o: Overlay): Check {
    Check("Overlay: " + o.name, OverlayInstalled(o.id), None)
  }

  const CockpitCheck := Check("Cockpit", CockpitState, Some(CockpitActive), "Running", "Not installed")

  /** Every check for a supported board: the fixed ones, one per overlay, then Cockpit. */
  function Registry(): (cs: seq<Check>)
    ensures |cs| == |FixedChecks| + |AllOverlays| + 1
    ensures cs[..|FixedChecks|] == FixedChecks
    ensures forall i :: 0 <= i < |AllOverlays| ==> cs[|FixedChecks| + i] == OverlayCheck(AllOverlays[i])
    ensures cs[|cs| - 1] == CockpitCheck
  {
    FixedChecks + seq(|AllOverlays|, i requires 0 <= i < |AllOverlays| => OverlayCheck(AllOverlays[i]))
      + [CockpitCheck]
  }

  /**
   * `run_check` on one registered check: named after the check, INFO exactly
   * when it has no predicate, otherwise PASS or FAIL as the predicate judges
   * the stripped probe output; no check passes a remediation.
   */
  function RunRegistered(c: Check, shell: Probe -> string): (r: CheckResult)
    ensures r.name == c.name && r.remediation == None
    ensures r.status == Info <==> c.judge.None?
    ensures c.judge.Some? ==> (r.status == Pass <==> c.judge.value(Strip(shell(c.probe))))
    ensures c.judge.Some? ==> (r.status == Fail <==> !c.judge.value(Strip(shell(c.probe))))
  {
    RunCheck(c.name, shell(c.probe), c.judge, c.passMsg, c.failMsg)
  }

  /** The stripped output the check at `i` classifies. */
  function Output(i: nat, shell: Probe -> string): string
    requires i < |Registry()|
  {
    Strip(shell(Registry()[i].probe))
  }

  /** The check names, in the order the results come. */
  const CheckNames: seq<string> := [
    "Boot device", "eMMC device", "Partition expansion", "Root filesystem usage",
    "Blue LED", "Green LED", "FFmpeg encoders",
    "MPP permissions", "RGA permissions", "DMA heap permissions",
    "Overlay: " + "USB host mode", "Overlay: " + "Disable HDMI RX", "Cockpit"]

  /** The registered checks carry the names listed in `CheckNames`. */
  lemma RegistryNames()
    ensures |Registry()| == |CheckNames|
    ensures forall i :: 0 <= i < |CheckNames| ==> Registry()[i].name == CheckNames[i]
  {
    forall i | 0 <= i < |CheckNames| ensures Registry()[i].name == CheckNames[i] {
      RegistryName(i);
    }
  }

  lemma RegistryName(i: nat)
    requires i < |CheckNames|
    ensures Registry()[i].name == CheckNames[i]
  {
    var cs := Registry();
    if i < 10 {
      assert cs[i] == cs[..10][i];
      FixedCheckName(i);
    } else if i == 10 {
      OverlayCheckName(0);
    } else if i == 11 {
      OverlayCheckName(1);
    }
  }

  lemma FixedCheckName(i: nat)
    requires i < |FixedChecks|
    ensures FixedChecks[i].name == CheckNames[i]
  {
  }

  lemma OverlayCheckName(k: nat)
    requires k < |AllOverlays|
    ensures Registry()[10 + k].name == CheckNames[10 + k]
  {
    assert Registry()[10 + k] == OverlayCheck(AllOverlays[k]);
    if k == 0 {
      assert AllOverlays[0].name == "USB host mode";
    } else {
      assert AllOverlays[1].name == "Disable HDMI RX";
    }
  }

  /**
   * `get_checks`: a non-Rockchip platform, then a non-Armbian one, gets a single
   * Skip; a supported platform gets one judged or informational result per
   * registered check, in order, with no remediation.
   */
  function GetChecks(p: Platform, shell: Probe -> string): (r: seq<CheckResult>)
    ensures !p.IsRockchip() ==> r == [CheckResult("Platform", Skip, "Not Rockchip")]
    ensures p.IsRockchip() && !p.IsArmbian() ==> r == [CheckResult("Platform", Skip, "Not Armbian")]
    ensures p.IsSupported() ==> |r| == |CheckNames| == 13
    ensures p.IsSupported() ==> forall i :: 0 <= i < |r| ==>
      r[i].name == CheckNames[i] && r[i].status != Skip && r[i].remediation == None
  {
    if !p.IsRockchip() then [CheckResult("Platform", Skip, "Not Rockchip")]
    else if !p.IsArmbian() then [CheckResult("Platform", Skip, "Not Armbian")]
    else
      var cs := Registry();
      RegistryNames();
      seq(|cs|, i requires 0 <= i < |cs| => RunRegistered(cs[i], shell))
  }

  // ---------------------------------------------------------------- per-check outcomes

  /** On a supported platform the result at `i` is the registered check at `i` run on its probe. */
  lemma ResultAt(p: Platform, shell: Probe -> string, i: nat)
    requires p.IsSupported() && i < |Registry()|
    ensures |GetChecks(p, shell)| == |Registry()|
    ensures GetChecks(p, shell)[i] == RunRegistered(Registry()[i], shell)
  {
  }

  lemma FixedAt(i: nat)
    requires i < |FixedChecks|
    ensures Registry()[i] == FixedChecks[i]
  {
    assert Registry()[i] == Registry()[..|FixedChecks|][i];
  }

  /** A template without `{` renders as itself. */
  lemma PlainTemplate(t: string, out: string)
    requires '{' !in t
    ensures RenderMessage(t, out) == t
  {
    NoBraceNoPlaceholder(t);
  }

  /** The bare `{result}` template renders as the output. */
  lemma OutputTemplate(out: string)
    ensures RenderMessage(Placeholder, out) == out
  {
    RenderAroundPlaceholder("", out, "");
    assert "" + Placeholder + "" == Placeholder;
  }

  /** The result at `i` of a supported platform is the fixed check `c` run on its probe. */
  lemma FixedResult(p: Platform, shell: Probe -> string, i: nat, c: Check)
    requires p.IsSupported() && i < |FixedChecks| && FixedChecks[i] == c
    ensures |GetChecks(p, shell)| == |Registry()| && Registry()[i] == c
    ensures GetChecks(p, shell)[i] == RunRegistered(c, shell)
    ensures Output(i, shell) == Strip(shell(c.probe))
  {
    ResultAt(p, shell, i);
    FixedAt(i);
  }

  /** A judged check whose templates have no placeholder shows one of them verbatim. */
  lemma PlainJudged(c: Check, shell: Probe -> string, judge: string -> bool)
    requires c.judge == Some(judge) && '{' !in c.passMsg && '{' !in c.failMsg
    ensures var r := RunRegistered(c, shell); var out := Strip(shell(c.probe));
      && (r.status == Pass <==> judge(out))
      && (r.status == Fail <==> !judge(out))
      && r.message == (if judge(out) then c.passMsg else c.failMsg)
  {
    var out := Strip(shell(c.probe));
    PlainTemplate(c.passMsg, out);
    PlainTemplate(c.failMsg, out);
  }

  /** A check judged by `BootIsEmmc` under the boot-device templates. */
  lemma BootJudged(c: Check, shell: Probe -> string)
    requires c.judge == Some(BootIsEmmc) && c.passMsg == "eMMC" && c.failMsg == "Not eMMC (" + Placeholder + ")"
    ensures var r := RunRegistered(c, shell); var out := Strip(shell(c.probe));
      && (r.status == Pass ==> r.message == "eMMC")
      && (r.status == Fail ==> r.message == "Not eMMC (" + out + ")")
  {
    var out := Strip(shell(c.probe));
    PlainTemplate("eMMC", out);
    RenderAroundPlaceholder("Not eMMC (", out, ")");
  }

  lemma PartitionJudged(c: Check, shell: Probe -> string)
    requires c.judge == Some(PartitionExpanded) && c.passMsg == "" && c.failMsg == "Not using full partition"
    ensures var r := RunRegistered(c, shell);
      && (r.status == Pass ==> r.message == "")
      && (r.status == Fail ==> r.message == "Not using full partition")
  {
    PartitionTemplatePlain();
    PlainJudged(c, shell, PartitionExpanded);
  }

  lemma PartitionTemplatePlain()
    ensures '{' !in "Not using full partition"
  {
  }

  lemma RootUsageJudged(c: Check, shell: Probe -> string)
    requires c.judge == Some(RootUsageOk) && c.passMsg == Placeholder && c.failMsg == Placeholder + " (too high)"
    ensures var r := RunRegistered(c, shell); var out := Strip(shell(c.probe));
      && (r.status == Pass ==> r.message == out)
      && (r.status == Fail ==> r.message == out + " (too high)")
  {
    var out := Strip(shell(c.probe));
    OutputTemplate(out);
    TooHighPlain();
    RenderAfterPlaceholder(out, " (too high)");
  }

  lemma TooHighPlain()
    ensures '{' !in " (too high)"
  {
  }

  /** Boot device passes iff it is `mmcblk0`; a failure names the device found. */
  lemma BootDeviceOutcome(p: Platform, shell: Probe -> string)
    requires p.IsSupported()
    ensures var r := GetChecks(p, shell)[0]; var out := Output(0, shell);
      && (r.status == Pass <==> out == "mmcblk0")
      && (r.status == Fail <==> out != "mmcblk0")
      && (r.status == Pass ==> r.message == "eMMC")
      && (r.status == Fail ==> r.message == "Not eMMC (" + out + ")")
  {
    FixedResult(p, shell, 0, BootCheck);
    BootJudged(BootCheck, shell);
  }

  /** The eMMC check passes unless the probe printed `missing`; a pass shows the size. */
  lemma EmmcOutcome(p: Platform, shell: Probe -> string)
    requires p.IsSupported()
    ensures var r := GetChecks(p, shell)[1]; var out := Output(1, shell);
      && (r.status == Pass <==> out != "missing")
      && (r.status == Fail <==> out == "missing")
      && (r.status == Pass ==> r.message == out)
      && (r.status == Fail ==> r.message == "Not found")
  {
    FixedResult(p, shell, 1, EmmcCheck);
    var out := Output(1, shell);
    OutputTemplate(out);
    PlainTemplate("Not found", out);
  }

  /** Partition expansion passes iff the output is a number of at least 95; its pass message is empty. */
  lemma PartitionOutcome(p: Platform, shell: Probe -> string)
    requires p.IsSupported()
    ensures var r := GetChecks(p, shell)[2]; var out := Output(2, shell);
      && (r.status == Pass <==> IsDigits(out) && Value(out) >= 95)
      && (r.status == Fail <==> !(IsDigits(out) && Value(out) >= 95))
      && (r.status == Pass ==> r.message == "")
      && (r.status == Fail ==> r.message == "Not using full partition")
  {
    FixedResult(p, shell, 2, PartitionCheck);
    PartitionJudged(PartitionCheck, shell);
  }

  /** Root usage passes iff, with `%` stripped, the output is a number below 90. */
  lemma RootUsageOutcome(p: Platform, shell: Probe -> string)
    requires p.IsSupported()
    ensures var r := GetChecks(p, shell)[3]; var out := Output(3, shell);
      var pct := StripChar(out, '%');
      && (r.status == Pass <==> IsDigits(pct) && Value(pct) < 90)
      && (r.status == Fail <==> !(IsDigits(pct) && Value(pct) < 90))
      && (r.status == Pass ==> r.message == out)
      && (r.status == Fail ==> r.message == out + " (too high)")
  {
    FixedResult(p, shell, 3, RootUsageCheck);
    RootUsageJudged(RootUsageCheck, shell);
  }

  /** Each LED check passes iff the LED's active trigger is `none`. */
  lemma LedOutcome(p: Platform, shell: Probe -> string, i: nat)
    requires p.IsSupported() && (i == 4 || i == 5)
    ensures var r := GetChecks(p, shell)[i]; var out := Output(i, shell);
      && (r.status == Pass <==> out == "none")
      && (r.status == Fail <==> out != "none")
      && r.message == (if out == "none" then "Disabled" else "LED is on")
  {
    var c := if i == 4 then LedCheck("Blue LED", "blue_led") else LedCheck("Green LED", "green_led");
    FixedResult(p, shell, i, c);
    LedTemplatesPlain();
    PlainJudged(c, shell, LedOff);
  }

  lemma LedTemplatesPlain()
    ensures '{' !in "Disabled" && '{' !in "LED is on"
  {
  }

  /** The encoder check passes iff at least two encoders are counted; either way it shows the count. */
  lemma EncodersOutcome(p: Platform, shell: Probe -> string)
    requires p.IsSupported()
    ensures var r := GetChecks(p, shell)[6]; var out := Output(6, shell);
      && (r.status == Pass <==> IsDigits(out) && Value(out) >= 2)
      && (r.status == Fail <==> !(IsDigits(out) && Value(out) >= 2))
      && r.message == out
  {
    FixedResult(p, shell, 6, EncodersCheck);
    OutputTemplate(Output(6, shell));
  }

  /** Each permission check passes iff the mode string begins `crw-rw-rw-`. */
  lemma PermissionOutcome(p: Platform, shell: Probe -> string, i: nat)
    requires p.IsSupported() && 7 <= i <= 9
    ensures var r := GetChecks(p, shell)[i]; var out := Output(i, shell);
      && (r.status == Pass <==> StartsWith(out, "crw-rw-rw-"))
      && (r.status == Fail <==> !StartsWith(out, "crw-rw-rw-"))
      && r.message == (if StartsWith(out, "crw-rw-rw-") then "666" else "Needs fix")
  {
    var c := if i == 7 then PermissionCheck("MPP permissions", "/dev/mpp_service")
      else if i == 8 then PermissionCheck("RGA permissions", "/dev/rga")
      else PermissionCheck("DMA heap permissions", "/dev/dma_heap/system");
    FixedResult(p, shell, i, c);
    PermissionTemplatesPlain();
    PlainJudged(c, shell, WorldReadWrite);
    WorldReadWriteIsModePrefix(Output(i, shell));
  }

  lemma PermissionTemplatesPlain()
    ensures '{' !in "666" && '{' !in "Needs fix"
  {
  }

  /** Each overlay check is informational and shows the probe's output. */
  lemma OverlayOutcome(p: Platform, shell: Probe -> string, k: nat)
    requires p.IsSupported() && k < |AllOverlays|
    ensures var r := GetChecks(p, shell)[10 + k];
      && r.status == Info
      && r.message == Output(10 + k, shell)
      && r.name == "Overlay: " + AllOverlays[k].name
  {
    ResultAt(p, shell, 10 + k);
  }

  /** The Cockpit check, last, passes iff the socket is `active`. */
  lemma CockpitOutcome(p: Platform, shell: Probe -> string)
    requires p.IsSupported()
    ensures var r := GetChecks(p, shell)[12]; var out := Output(12, shell);
      && (r.status == Pass <==> out == "active")
      && (r.status == Fail <==> out != "active")
      && r.message == (if out == "active" then "Running" else "Not installed")
  {
    ResultAt(p, shell, 12);
    assert Registry()[12] == CockpitCheck;
    CockpitTemplatesPlain();
    PlainJudged(CockpitCheck, shell, CockpitActive);
  }

  lemma CockpitTemplatesPlain()
    ensures '{' !in "Running" && '{' !in "Not installed"
  {
  }

  // ---------------------------------------------------------------- predicates on numbers

  /** The `missing` guard adds nothing: `missing` does not begin with the mode prefix. */
  lemma WorldReadWriteIsModePrefix(x: string)
    ensures WorldReadWrite(x) <==> StartsWith(x, "crw-rw-rw-")
  {
    if x == "missing" {
      assert x[0] != 'c';
    }
  }

  /** On the decimal form of `n` the numeric predicates compare `n` with their threshold. */
  lemma NumericThresholds(n: nat)
    ensures PartitionExpanded(FromNat(n)) <==> n >= 95
    ensures EncodersPresent(FromNat(n)) <==> n >= 2
    ensures RootUsageOk(FromNat(n) + "%") <==> n < 90
  {
    ValueFromNat(n);
    PercentStripped(FromNat(n));
  }

  /** Stripping `%` from a number followed by `%` leaves the number. */
  lemma PercentStripped(s: string)
    requires IsDigits(s)
    ensures StripChar(s + "%", '%') == s
  {
    var t := s + "%";
    assert TrimStart(t, x => x == '%') == t by {
      assert t[0] == s[0] && IsDigit(s[0]);
    }
    assert TrimEnd(t, x => x == '%') == s by {
      assert t[..|t| - 1] == s;
      assert IsDigit(s[|s| - 1]);
    }
  }

  /** Under the encoder check's judge and templates, a count of `3` passes showing `3`. */
  lemma EncoderCountExample(c: Check, shell: Probe -> string)
    requires c.judge == Some(EncodersPresent) && c.passMsg == "{result}" && shell(c.probe) == "3"
    ensures RunRegistered(c, shell) == CheckResult(c.name, Pass, "3")
  {
    StripOfStripped("3");
    assert Strip("3") == "3";
    ThreeEncoders();
    OutputTemplate("3");
  }

  lemma ThreeEncoders()
    ensures EncodersPresent("3")
  {
    SingleDigit('3');
    assert ['3'] == "3";
  }

  /** Under the encoder check's judge and templates, `abc` fails showing `abc`. */
  lemma EncoderTextExample(c: Check, shell: Probe -> string)
    requires c.judge == Some(EncodersPresent) && c.failMsg == "{result}" && shell(c.probe) == "abc"
    ensures RunRegistered(c, shell) == CheckResult(c.name, Fail, "abc")
  {
    StripOfStripped("abc");
    assert Strip("abc") == "abc";
    assert !IsDigit("abc"[0]);
    assert !IsDigits("abc");
    OutputTemplate("abc");
  }
}
