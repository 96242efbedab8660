/**
 * Platform detection. The files the detector looks at are parameters: for each
 * one, whether it exists and/or its raw text (`None` when it is missing or
 * unreadable).
 */
module PlatformDetect {
  import opened Wrappers
  import opened Text
  import opened Lines
  import opened PlatformTypes

  /** `_read_file`: the file's text stripped of surrounding whitespace, or `None`. */
  function ReadFile(raw: Option<string>): (r: Option<string>)
    ensures r.Some? <==> raw.Some?
    ensures r.Some? ==> r.value == Strip(raw.value) && IsStripped(r.value)
  {
    match raw
    case None => None
    case Some(t) => Some(Strip(t))
  }

  /** Python truthiness of a read: the file was read and is not empty. */
  predicate Truthy(x: Option<string>) {
    x.Some? && x.value != ""
  }

  /** What the detector reads from the filesystem. */
  datatype SystemFiles = SystemFiles(
    armbianReleaseExists: bool,     // /etc/armbian-release exists
    armbianRelease: Option<string>, // its text
    dietpiMarkerExists: bool,       // /boot/dietpi.txt exists
    osRelease: Option<string>,      // /etc/os-release
    dtCompatible: Option<string>,   // /proc/device-tree/compatible
    dtModel: Option<string>,        // /proc/device-tree/model
    procVersion: Option<string>)    // /proc/version

  // ---------------------------------------------------------------- OS

  /** `line.split("=", 1)[1]`: the text after the first `=`. */
  function SplitValue(line: string): string
    requires '=' in line
  {
    line[IndexOf(line, '=') + 1..]
  }

  /** On a line that starts with `KEY=`, the split value is the text after the key. */
  lemma SplitValueAfterKey(line: string, key: string)
    requires |key| > 0 && key[|key| - 1] == '=' && '=' !in key[..|key| - 1]
    requires StartsWith(line, key)
    ensures '=' in line
    ensures SplitValue(line) == line[|key|..]
  {
    assert line[|key| - 1] == '=';
    assert line == key[..|key| - 1] + ['='] + line[|key|..];
    IndexOfAfter(key[..|key| - 1], '=', line[|key|..]);
  }

  /** The value of a `KEY=value` line as the Armbian release file is read. */
  function FieldValue(line: string, key: string): string
    requires StartsWith(line, key)
  {
    Strip(line[|key|..])
  }

  /**
   * Reference reading of a key: the value on the LAST line that starts with
   * `key`, or `default` when no line does.
   */
  function LastValue(lines: seq<string>, key: string, default: string): string
    decreases |lines|
  {
    if lines == [] then default
    else if StartsWith(lines[|lines| - 1], key) then FieldValue(lines[|lines| - 1], key)
    else LastValue(lines[..|lines| - 1], key, default)
  }

  /** The loop over the lines of the Armbian release file (`VERSION=` and `BOARD=`). */
  function ScanRelease(lines: seq<string>, version: string, board: string): (string, string)
    decreases |lines|
  {
    if lines == [] then (version, board)
    else
      var l := lines[0];
      if StartsWith(l, "VERSION=") then
        SplitValueAfterKey(l, "VERSION=");
        ScanRelease(lines[1..], Strip(SplitValue(l)), board)
      else if StartsWith(l, "BOARD=") then
        SplitValueAfterKey(l, "BOARD=");
        ScanRelease(lines[1..], version, Strip(SplitValue(l)))
      else
        ScanRelease(lines[1..], version, board)
  }

  /** No line starts with both keys. */
  lemma KeysExclusive(l: string)
    requires StartsWith(l, "VERSION=")
    ensures !StartsWith(l, "BOARD=")
  {
    assert l[0] == "VERSION="[0] == 'V';
  }

  /** Reading the first line and then the rest is reading the whole file. */
  lemma {:induction false} LastValueCons(l: string, rest: seq<string>, key: string, default: string)
    ensures LastValue([l] + rest, key, default)
         == LastValue(rest, key, if StartsWith(l, key) then FieldValue(l, key) else default)
    decreases |rest|
  {
    if rest != [] {
      var all := [l] + rest;
      assert all[|all| - 1] == rest[|rest| - 1];
      assert all[..|all| - 1] == [l] + rest[..|rest| - 1];
      LastValueCons(l, rest[..|rest| - 1], key, default);
    }
  }

  /**
   * The scan ends with the values of the last `VERSION=` and last `BOARD=`
   * lines: a later line overrides an earlier one, and a missing key keeps its
   * starting value.
   */
  lemma {:induction false} ScanReleaseLastWins(lines: seq<string>, version: string, board: string)
    ensures ScanRelease(lines, version, board)
         == (LastValue(lines, "VERSION=", version), LastValue(lines, "BOARD=", board))
    decreases |lines|
  {
    if lines != [] {
      var l := lines[0];
      assert lines == [l] + lines[1..];
      LastValueCons(l, lines[1..], "VERSION=", version);
      LastValueCons(l, lines[1..], "BOARD=", board);
      if StartsWith(l, "VERSION=") {
        KeysExclusive(l);
        var v := ScanVersionStep(lines, version, board);
        ScanReleaseLastWins(lines[1..], v, board);
      } else if StartsWith(l, "BOARD=") {
        var b := ScanBoardStep(lines, version, board);
        ScanReleaseLastWins(lines[1..], version, b);
      } else {
        ScanReleaseLastWins(lines[1..], version, board);
      }
    }
  }

  /** A `VERSION=` line replaces the version with its stripped value. */
  lemma ScanVersionStep(lines: seq<string>, version: string, board: string) returns (v: string)
    requires lines != [] && StartsWith(lines[0], "VERSION=")
    ensures v == FieldValue(lines[0], "VERSION=")
    ensures ScanRelease(lines, version, board) == ScanRelease(lines[1..], v, board)
  {
    SplitValueAfterKey(lines[0], "VERSION=");
    v := FieldValue(lines[0], "VERSION=");
  }

  /** A `BOARD=` line replaces the board with its stripped value. */
  lemma ScanBoardStep(lines: seq<string>, version: string, board: string) returns (b: string)
    requires lines != [] && StartsWith(lines[0], "BOARD=") && !StartsWith(lines[0], "VERSION=")
    ensures b == FieldValue(lines[0], "BOARD=")
    ensures ScanRelease(lines, version, board) == ScanRelease(lines[1..], version, b)
  {
    SplitValueAfterKey(lines[0], "BOARD=");
    b := FieldValue(lines[0], "BOARD=");
  }

  /** `LastValue` is the value on line `k` when no later line starts with `key`. */
  lemma {:induction false} LastValueIsLastLine(lines: seq<string>, key: string, default: string, k: nat)
    requires k < |lines| && StartsWith(lines[k], key)
    requires forall m :: k < m < |lines| ==> !StartsWith(lines[m], key)
    ensures LastValue(lines, key, default) == FieldValue(lines[k], key)
    decreases |lines|
  {
    if k < |lines| - 1 {
      var front := lines[..|lines| - 1];
      assert forall m :: k < m < |front| ==> front[m] == lines[m];
      LastValueIsLastLine(front, key, default, k);
    }
  }

  /** `LastValue` is the default when no line starts with `key`. */
  lemma {:induction false} LastValueAbsent(lines: seq<string>, key: string, default: string)
    requires forall m :: 0 <= m < |lines| ==> !StartsWith(lines[m], key)
    ensures LastValue(lines, key, default) == default
    decreases |lines|
  {
    if lines != [] {
      var front := lines[..|lines| - 1];
      assert forall m :: 0 <= m < |front| ==> front[m] == lines[m];
      LastValueAbsent(front, key, default);
    }
  }

  /** `.strip().strip('"').lower()` applied to an `ID=` value. */
  function NormalizeId(v: string): string {
    Lower(StripChar(Strip(v), '"'))
  }

  /** The normalised value of the first `ID=` line, or `""` when there is none. */
  function FirstId(lines: seq<string>): string
    decreases |lines|
  {
    if lines == [] then ""
    else if StartsWith(lines[0], "ID=") then
      SplitValueAfterKey(lines[0], "ID=");
      NormalizeId(SplitValue(lines[0]))
    else FirstId(lines[1..])
  }

  /** The first `ID=` line decides; later ones are ignored. */
  lemma {:induction false} FirstIdIsFirstLine(lines: seq<string>, k: nat)
    requires k < |lines| && StartsWith(lines[k], "ID=")
    requires forall m :: 0 <= m < k ==> !StartsWith(lines[m], "ID=")
    ensures FirstId(lines) == NormalizeId(lines[k][3..])
    decreases k
  {
    if k == 0 {
      FirstIdHead(lines);
    } else {
      assert forall m :: 0 <= m < k - 1 ==> lines[1..][m] == lines[m + 1];
      FirstIdIsFirstLine(lines[1..], k - 1);
      FirstIdSkips(lines);
    }
  }

  lemma FirstIdHead(lines: seq<string>)
    requires lines != [] && StartsWith(lines[0], "ID=")
    ensures FirstId(lines) == NormalizeId(lines[0][3..])
  {
    SplitValueAfterKey(lines[0], "ID=");
  }

  lemma FirstIdSkips(lines: seq<string>)
    requires lines != [] && !StartsWith(lines[0], "ID=")
    ensures FirstId(lines) == FirstId(lines[1..])
  {
  }

  /** Without an `ID=` line the id is empty, which maps to Unknown. */
  lemma {:induction false} FirstIdAbsent(lines: seq<string>)
    requires forall m :: 0 <= m < |lines| ==> !StartsWith(lines[m], "ID=")
    ensures FirstId(lines) == ""
    ensures OsFromId(FirstId(lines)) == OsType.Unknown
    decreases |lines|
  {
    if lines != [] {
      assert forall m :: 0 <= m < |lines[1..]| ==> lines[1..][m] == lines[m + 1];
      FirstIdAbsent(lines[1..]);
    }
  }

  /** The `os_map` lookup with its `UNKNOWN` fallback. */
  function OsFromId(id: string): (r: OsType)
    ensures r == Debian <==> id == "debian"
    ensures r == Ubuntu <==> id == "ubuntu"
    ensures r == Debian || r == Ubuntu || r == OsType.Unknown
  {
    if id == "debian" then Debian
    else if id == "ubuntu" then Ubuntu
    else OsType.Unknown
  }

  /** `_detect_os`: Armbian first, then DietPi, then the os-release `ID=`. */
  function DetectOs(files: SystemFiles): (r: (OsType, string, string))
    ensures r.0 == Armbian <==> files.armbianReleaseExists
    ensures !files.armbianReleaseExists && files.dietpiMarkerExists ==> r == (DietPi, "", "")
    ensures r.0 != Armbian ==> r.1 == "" && r.2 == ""
    ensures r.0 != Vendor
  {
    if files.armbianReleaseExists then
      var content := ReadFile(files.armbianRelease);
      if Truthy(content) then
        var (version, board) := ScanRelease(SplitLines(content.value), "", "");
        (Armbian, version, board)
      else (Armbian, "", "")
    else if files.dietpiMarkerExists then (DietPi, "", "")
    else
      var osRelease := ReadFile(files.osRelease);
      if Truthy(osRelease) then (OsFromId(FirstId(SplitLines(osRelease.value))), "", "")
      else (OsType.Unknown, "", "")
  }

  /**
   * With the Armbian release file present, the OS is Armbian whatever the
   * other files say; version and board come from its last `VERSION=` and
   * `BOARD=` lines, and stay empty when it cannot be read or is blank.
   */
  lemma ArmbianWins(files: SystemFiles)
    requires files.armbianReleaseExists
    ensures DetectOs(files).0 == Armbian
    ensures !Truthy(ReadFile(files.armbianRelease)) ==> DetectOs(files) == (Armbian, "", "")
    ensures Truthy(ReadFile(files.armbianRelease)) ==>
      var lines := SplitLines(Strip(files.armbianRelease.value));
      DetectOs(files).1 == LastValue(lines, "VERSION=", "") && DetectOs(files).2 == LastValue(lines, "BOARD=", "")
  {
    var content := ReadFile(files.armbianRelease);
    if Truthy(content) {
      ScanReleaseLastWins(SplitLines(content.value), "", "");
    }
  }

  /**
   * An Armbian release file `VERSION=<v>` / `BOARD=<b>` yields Armbian with
   * version `<v>` and board `<b>`.
   */
  lemma ArmbianReleaseFixture(files: SystemFiles, v: string, b: string)
    requires IsWord(v) && IsWord(b)
    requires files.armbianReleaseExists
    requires files.armbianRelease == Some("VERSION=" + v + "\nBOARD=" + b)
    ensures DetectOs(files) == (Armbian, v, b)
  {
    FixtureLines(v, b);
    FixtureValues(v, b);
    ArmbianWins(files);
  }

  lemma FixtureLines(v: string, b: string)
    requires IsWord(v) && IsWord(b)
    ensures SplitLines(Strip("VERSION=" + v + "\nBOARD=" + b)) == ["VERSION=" + v, "BOARD=" + b]
  {
    FixtureStripped(v, b);
    FixtureSplits(v, b);
  }

  lemma KeysHaveNoBreak()
    ensures NoLineBreak("VERSION=") && NoLineBreak("BOARD=")
  {
  }

  lemma FixtureStripped(v: string, b: string)
    requires IsWord(b)
    ensures Strip("VERSION=" + v + "\nBOARD=" + b) == ("VERSION=" + v) + "\n" + ("BOARD=" + b)
  {
    var s := "VERSION=" + v + "\nBOARD=" + b;
    assert s == ("VERSION=" + v) + "\n" + ("BOARD=" + b);
    assert s[0] == 'V' && s[|s| - 1] == b[|b| - 1];
    StripOfStripped(s);
  }

  lemma FixtureSplits(v: string, b: string)
    requires IsWord(v) && IsWord(b)
    ensures SplitLines(("VERSION=" + v) + "\n" + ("BOARD=" + b)) == ["VERSION=" + v, "BOARD=" + b]
  {
    KeysHaveNoBreak();
    KeyLineHasNoBreak("VERSION=", v);
    KeyLineHasNoBreak("BOARD=", b);
    SplitTwoLines("VERSION=" + v, "BOARD=" + b);
  }

  lemma KeyLineHasNoBreak(key: string, v: string)
    requires NoLineBreak(key) && IsWord(v)
    ensures NoLineBreak(key + v)
  {
    NoSpaceNoLineBreak(v);
    NoLineBreakAppend(key, v);
  }

  lemma FixtureValues(v: string, b: string)
    requires IsWord(v) && IsWord(b)
    ensures LastValue(["VERSION=" + v, "BOARD=" + b], "VERSION=", "") == v
    ensures LastValue(["VERSION=" + v, "BOARD=" + b], "BOARD=", "") == b
  {
    var l1 := "VERSION=" + v;
    var l2 := "BOARD=" + b;
    assert StartsWith(l1, "VERSION=") && StartsWith(l2, "BOARD=");
    assert l2[0] == 'B' && !StartsWith(l2, "VERSION=");
    assert l1[|"VERSION="|..] == v && l2[|"BOARD="|..] == b;
    StripOfStripped(v);
    StripOfStripped(b);
    LastValueIsLastLine([l1, l2], "VERSION=", "", 0);
    LastValueIsLastLine([l1, l2], "BOARD=", "", 1);
  }

  /**
   * Without Armbian or DietPi markers the OS is read from the first `ID=` line
   * of os-release: `debian` and `ubuntu` are recognised, anything else, a
   * missing `ID=` line or a missing file is Unknown.
   */
  lemma OsReleaseFallback(files: SystemFiles)
    requires !files.armbianReleaseExists && !files.dietpiMarkerExists
    ensures DetectOs(files).1 == "" && DetectOs(files).2 == ""
    ensures !Truthy(ReadFile(files.osRelease)) ==> DetectOs(files).0 == OsType.Unknown
    ensures Truthy(ReadFile(files.osRelease)) ==>
      DetectOs(files).0 == OsFromId(FirstId(SplitLines(Strip(files.osRelease.value))))
  {
  }

  // ---------------------------------------------------------------- SBC

  /** The chip of a Rockchip board: the most specific name found first. */
  function RockchipChip(compat: string): (m: SbcModel)
    ensures ModelOfFamily(m, Rockchip)
    ensures m == RK3588S <==> Contains(compat, "rk3588s")
    ensures m == RK3588 <==> !Contains(compat, "rk3588s") && Contains(compat, "rk3588")
    ensures m == RK3576 <==> !Contains(compat, "rk3588s") && !Contains(compat, "rk3588") && Contains(compat, "rk3576")
    ensures m == RK3566 <==>
      !Contains(compat, "rk3588s") && !Contains(compat, "rk3588") && !Contains(compat, "rk3576") && Contains(compat, "rk3566")
    ensures m == SbcModel.Unknown <==>
      !Contains(compat, "rk3588s") && !Contains(compat, "rk3588") && !Contains(compat, "rk3576") && !Contains(compat, "rk3566")
  {
    if Contains(compat, "rk3588s") then RK3588S
    else if Contains(compat, "rk3588") then RK3588
    else if Contains(compat, "rk3576") then RK3576
    else if Contains(compat, "rk3566") then RK3566
    else SbcModel.Unknown
  }

  /** The Raspberry Pi model named by the device-tree model string. */
  function PiModel(model: string): (m: SbcModel)
    ensures ModelOfFamily(m, RaspberryPi)
    ensures m == RPI5 <==> Contains(model, "pi 5")
    ensures m == RPI4 <==> !Contains(model, "pi 5") && Contains(model, "pi 4")
    ensures m == SbcModel.Unknown <==> !Contains(model, "pi 5") && !Contains(model, "pi 4")
  {
    if Contains(model, "pi 5") then RPI5
    else if Contains(model, "pi 4") then RPI4
    else SbcModel.Unknown
  }

  /** The Allwinner chip named by the compatible string. */
  function AllwinnerChip(compat: string): (m: SbcModel)
    ensures ModelOfFamily(m, Allwinner)
    ensures m == H618 <==> Contains(compat, "h618")
    ensures m == H616 <==> !Contains(compat, "h618") && Contains(compat, "h616")
    ensures m == SbcModel.Unknown <==> !Contains(compat, "h618") && !Contains(compat, "h616")
  {
    if Contains(compat, "h618") then H618
    else if Contains(compat, "h616") then H616
    else SbcModel.Unknown
  }

  /** The compatible string as matched: NUL separators made newlines, lower-cased. */
  function NormalizeCompatible(c: string): string {
    Lower(ReplaceChar(c, '\0', '\n'))
  }

  /** The model string as matched: NULs removed, lower-cased. */
  function NormalizeModel(m: string): string {
    Lower(RemoveChar(m, '\0'))
  }

  /**
   * `_detect_sbc`: Rockchip if the compatible string says so, else Raspberry Pi
   * (by model string or a `bcm2` compatible), else Allwinner (`allwinner` or
   * `sun`), else Unknown. The returned chip always belongs to the returned family.
   */
  function DetectSbc(compatible: Option<string>, model: Option<string>): (r: (SbcFamily, SbcModel))
    ensures ModelOfFamily(r.1, r.0)
    ensures r.0 == SbcFamily.Unknown ==> r.1 == SbcModel.Unknown
  {
    var c := ReadFile(compatible);
    if !Truthy(c) then (SbcFamily.Unknown, SbcModel.Unknown)
    else
      var compat := NormalizeCompatible(c.value);
      if Contains(compat, "rockchip") then (Rockchip, RockchipChip(compat))
      else
        var m := NormalizeModel(ReadFile(model).GetOr(""));
        if Contains(m, "raspberry") || Contains(compat, "bcm2") then (RaspberryPi, PiModel(m))
        else if Contains(compat, "allwinner") || Contains(compat, "sun") then (Allwinner, AllwinnerChip(compat))
        else (SbcFamily.Unknown, SbcModel.Unknown)
  }

  /** A missing or blank compatible string gives Unknown/Unknown whatever the model file says. */
  lemma NoCompatibleIsUnknown(compatible: Option<string>, model: Option<string>, model': Option<string>)
    requires !Truthy(ReadFile(compatible))
    ensures DetectSbc(compatible, model) == (SbcFamily.Unknown, SbcModel.Unknown)
    ensures DetectSbc(compatible, model) == DetectSbc(compatible, model')
  {
  }

  /**
   * The family precedence: a Rockchip compatible string wins over any Raspberry
   * Pi evidence, and Raspberry Pi evidence wins over Allwinner evidence.
   */
  lemma FamilyPrecedence(compatible: Option<string>, model: Option<string>)
    requires Truthy(ReadFile(compatible))
    ensures var compat := NormalizeCompatible(ReadFile(compatible).value);
      var m := NormalizeModel(ReadFile(model).GetOr(""));
      && (DetectSbc(compatible, model).0 == Rockchip <==> Contains(compat, "rockchip"))
      && (DetectSbc(compatible, model).0 == RaspberryPi <==>
            !Contains(compat, "rockchip") && (Contains(m, "raspberry") || Contains(compat, "bcm2")))
      && (DetectSbc(compatible, model).0 == Allwinner <==>
            !Contains(compat, "rockchip") && !Contains(m, "raspberry") && !Contains(compat, "bcm2")
            && (Contains(compat, "allwinner") || Contains(compat, "sun")))
  {
  }

  /** A compatible list naming both `rk3588s` and `rk3588` is an RK3588S, never an RK3588. */
  lemma SpecificChipFirst(compatible: Option<string>, model: Option<string>)
    requires Truthy(ReadFile(compatible))
    requires Contains(NormalizeCompatible(ReadFile(compatible).value), "rockchip")
    ensures DetectSbc(compatible, model).1 == RK3588 ==>
      !Contains(NormalizeCompatible(ReadFile(compatible).value), "rk3588s")
    ensures Contains(NormalizeCompatible(ReadFile(compatible).value), "rk3588s") ==>
      DetectSbc(compatible, model) == (Rockchip, RK3588S)
  {
  }

  // ---------------------------------------------------------------- kernel

  /** The kernel release: the third whitespace-separated token of /proc/version, or `""`. */
  function KernelVersion(procVersion: Option<string>): (r: string)
    ensures r == "" || IsWord(r)
  {
    var k := ReadFile(procVersion);
    if Truthy(k) then
      var parts := Words(k.value);
      if |parts| >= 3 then parts[2] else ""
    else ""
  }

  /** Words joined by single spaces have no surrounding whitespace. */
  lemma {:induction false} JoinedWordsStripped(ws: seq<string>)
    requires forall k :: 0 <= k < |ws| ==> IsWord(ws[k])
    ensures IsStripped(Join(ws, " "))
    ensures |ws| > 0 ==> Join(ws, " ") != ""
    decreases |ws|
  {
    if |ws| >= 2 {
      var rest := Join(ws[1..], " ");
      assert forall k :: 0 <= k < |ws[1..]| ==> ws[1..][k] == ws[k + 1];
      JoinedWordsStripped(ws[1..]);
      assert Join(ws, " ") == ws[0] + " " + rest;
    }
  }

  /** On space-joined words the kernel version is the third word, if there is one. */
  lemma KernelVersionOfWords(ws: seq<string>)
    requires forall k :: 0 <= k < |ws| ==> IsWord(ws[k])
    ensures KernelVersion(Some(Join(ws, " "))) == if |ws| >= 3 then ws[2] else ""
  {
    if ws != [] {
      KernelVersionOfSomeWords(ws);
    } else {
      StripOfStripped("");
    }
  }

  lemma KernelVersionOfSomeWords(ws: seq<string>)
    requires ws != []
    requires forall k :: 0 <= k < |ws| ==> IsWord(ws[k])
    ensures KernelVersion(Some(Join(ws, " "))) == if |ws| >= 3 then ws[2] else ""
  {
    JoinedWordsStripped(ws);
    KernelVersionOfStripped(Join(ws, " "));
    WordsJoin(ws);
  }

  lemma KernelVersionOfStripped(s: string)
    requires IsStripped(s) && s != ""
    ensures var parts := Words(s);
      KernelVersion(Some(s)) == if |parts| >= 3 then parts[2] else ""
  {
    StripOfStripped(s);
    assert ReadFile(Some(s)) == Some(s);
  }

  /** For any contents at all, the kernel version is the third token of the file, or `""`. */
  lemma KernelVersionIsThirdWord(procVersion: Option<string>)
    ensures procVersion.None? ==> KernelVersion(procVersion) == ""
    ensures procVersion.Some? ==>
      var ws := Words(procVersion.value);
      KernelVersion(procVersion) == if |ws| >= 3 then ws[2] else ""
  {
    if procVersion.Some? {
      var t := procVersion.value;
      WordsOfStrip(t);
      if Strip(t) == "" {
        WordsEmpty();
      }
    }
  }

  /** The file as the kernel writes it, one line ending in a newline, yields its third word. */
  lemma KernelVersionOfLine(ws: seq<string>)
    requires forall k :: 0 <= k < |ws| ==> IsWord(ws[k])
    ensures KernelVersion(Some(Join(ws, " ") + "\n")) == if |ws| >= 3 then ws[2] else ""
  {
    WordsOfJoinedLine(ws);
    KernelVersionIsThirdWord(Some(Join(ws, " ") + "\n"));
  }

  // ---------------------------------------------------------------- platform

  /** `detect_platform`: never fails; every missing input degrades to Unknown or `""`. */
  function DetectPlatform(files: SystemFiles): (p: Platform)
    ensures (p.osType, p.osVersion, p.board) == DetectOs(files)
    ensures (p.sbcFamily, p.sbcModel) == DetectSbc(files.dtCompatible, files.dtModel)
    ensures p.kernelVersion == KernelVersion(files.procVersion)
    ensures ModelOfFamily(p.sbcModel, p.sbcFamily)
  {
    var (osType, osVersion, board) := DetectOs(files);
    var (family, model) := DetectSbc(files.dtCompatible, files.dtModel);
    Platform(osType, family, model, osVersion, KernelVersion(files.procVersion), board)
  }
}
