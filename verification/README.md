# videonode-sbc-config: platform detection, verification checks and deploy generators

This project models the deterministic core of `videonode-sbc-config`. That tool
configures single-board computers (Rockchip boards running Armbian, chiefly)
for video encoding. The model covers four parts.

- **Platform detection.** `platform/types.py` and `platform/detect.py` classify the
  operating system, the board family and chip, and the kernel release from system
  files. The files are inputs (`PlatformDetect.SystemFiles`): each file's raw
  contents is an `Option<string>` (`None` when it is missing or unreadable), and
  the two marker files are booleans. Detection never fails.
- **Verification checks.** `deploys/verify/` holds three pieces.
  - `run_check` classifies one probe's standard output into a `CheckResult`.
  - `get_checks` is the fixed, ordered registry of Rockchip/Armbian checks with their
    predicates.
  - `run_all_checks` dispatches between the registry and a single Skip for
    unsupported platforms.

  The shell is a parameter `shell: Probe -> string`. It maps each probe (a
  `RockchipArmbian.Probe`, whose `Command` is the shell command) to the standard
  output that command prints. So the count, order and classification of the
  results are stated for every possible host.
- **Static catalogues.**
  - The device-tree overlays and their lookup by id.
  - The installable components offered per platform.
  - The build-dependency union, which is deduplicated and sorted.
  - The build-directory helper.
- **Deploy generators.**
  - For the LED deploy: the LED configuration file, the sysfs command list, the
    backup decision and the restore unit.
  - For the Grafana Alloy deploy: the download decision, the WiFi forwarding
    choice, the configuration and unit templates, and the required-argument check.

Python's string operations are modelled on ASCII:
- `strip` and `split` use the ASCII whitespace set Python uses, including `\x1c`-`\x1f` (module `Text`, `Lines`).
- `splitlines` uses its ASCII line breaks (module `Lines`).
- `isdigit`/`int` is modelled in module `Digits`.
- `lower` is modelled in module `Text`.
- `sorted` over strings is code-point order, defined in `Lexicographic`. Dafny's own `<` on sequences means proper prefix, so it cannot be used.

Notes on following the code:
- `_read_file` strips both ends of a file's contents (`detect.py:11`), so the model does too. This is stronger than stripping trailing whitespace alone.
- In `run_check` the `if pass_msg else ""` guard changes nothing, because replacing in an empty template gives the empty string. `CheckRunner.RenderMessageIsReplace` proves the guarded form equal to a plain replace-all.
- Likewise, in the permission checks the `!= "missing"` guard is subsumed by the prefix test. `RockchipArmbian.WorldReadWriteIsModePrefix` proves this.

## Model

| member | source | states |
|---|---|---|
| PlatformTypes.NameLookupRoundTrip | src/videonode_sbc_config/platform/types.py:7-42 | Every family, model and OS enum name looks back up to exactly that member, so the names are distinct. |
| PlatformTypes.PlatformDefaults | src/videonode_sbc_config/platform/types.py:52-54 | A platform built from its three enums has an empty OS version, kernel version and board. |
| PlatformTypes.SupportedIff | src/videonode_sbc_config/platform/types.py:56-67 | `is_rockchip` iff the family is Rockchip. `is_armbian` iff the OS is Armbian. `is_supported` iff both hold. |
| PlatformTypes.Platform.ToString | src/videonode_sbc_config/platform/types.py:69-70 | `str(platform)` has the form `FAMILY/MODEL on OS` and parses back to the platform's family, model and OS. So two platforms with the same description agree on all three. |
| PlatformDetect.ReadFile | src/videonode_sbc_config/platform/detect.py:8-13 | A present file gives its contents stripped of surrounding whitespace. An absent file gives None. |
| PlatformDetect.SplitValueAfterKey | src/videonode_sbc_config/platform/detect.py:26 | For a line starting with a `KEY=` prefix, the value after the first `=` is exactly the text after the prefix. |
| PlatformDetect.ScanReleaseLastWins | src/videonode_sbc_config/platform/detect.py:24-28 | The release-file scan ends with the value of the last `VERSION=` line and of the last `BOARD=` line. A key that never occurs keeps its starting value. |
| PlatformDetect.LastValueIsLastLine | src/videonode_sbc_config/platform/detect.py:24-28 | A key's value is the stripped text of the last line carrying that key. Earlier lines are overridden. |
| PlatformDetect.LastValueAbsent | src/videonode_sbc_config/platform/detect.py:20-28 | With no line carrying the key, the value stays at its default. |
| PlatformDetect.DetectOs | src/videonode_sbc_config/platform/detect.py:16-47 | The OS is Armbian iff the Armbian release file exists. Otherwise a DietPi marker gives exactly `(DIETPI, "", "")`. Version and board are empty for any OS but Armbian. The result is never Vendor. |
| PlatformDetect.ArmbianWins | src/videonode_sbc_config/platform/detect.py:19-29 | When the release file exists the OS is Armbian, whatever the DietPi marker and os-release say. Unreadable or blank contents give empty version and board. Otherwise they are the last `VERSION=` and `BOARD=` values. |
| PlatformDetect.ArmbianReleaseFixture | src/videonode_sbc_config/platform/detect.py:19-29 | A release file `VERSION=<v>` newline `BOARD=<b>` gives `(ARMBIAN, v, b)`. |
| PlatformDetect.FirstIdIsFirstLine | src/videonode_sbc_config/platform/detect.py:38-42 | The OS id comes from the first `ID=` line, stripped of whitespace and quotes and lower-cased. Later `ID=` lines are ignored. |
| PlatformDetect.FirstIdAbsent | src/videonode_sbc_config/platform/detect.py:38-45 | An os-release file with no `ID=` line gives the empty id and the OS UNKNOWN. |
| PlatformDetect.OsFromId | src/videonode_sbc_config/platform/detect.py:44-45 | The id maps to DEBIAN iff it is `debian` and to UBUNTU iff it is `ubuntu`. Every other id maps to UNKNOWN. |
| PlatformDetect.OsReleaseFallback | src/videonode_sbc_config/platform/detect.py:36-47 | With neither marker file, the OS is the mapped first id of os-release, or UNKNOWN when it is missing or blank. Version and board are empty. |
| PlatformDetect.RockchipChip | src/videonode_sbc_config/platform/detect.py:60-70 | The chip is RK3588S iff the compatible text contains `rk3588s`. It is RK3588, RK3576 or RK3566 iff the text contains that name and none of the names tested before it. It is UNKNOWN iff the text contains none of the four. So text with `rk3588s` is never RK3588. |
| PlatformDetect.PiModel | src/videonode_sbc_config/platform/detect.py:75-81 | The model is RPI5 iff the model text names `pi 5`. It is RPI4 iff the text names `pi 4` but not `pi 5`, and UNKNOWN iff it names neither. |
| PlatformDetect.AllwinnerChip | src/videonode_sbc_config/platform/detect.py:84-90 | The chip is H618 iff the compatible text names `h618`. It is H616 iff the text names `h616` but not `h618`, and UNKNOWN iff it names neither. |
| PlatformDetect.DetectSbc | src/videonode_sbc_config/platform/detect.py:50-92 | The returned model always belongs to the returned family. An UNKNOWN family comes with an UNKNOWN model. |
| PlatformDetect.NoCompatibleIsUnknown | src/videonode_sbc_config/platform/detect.py:52-54 | A missing or blank compatible string gives `(UNKNOWN, UNKNOWN)` and ignores the model file. |
| PlatformDetect.FamilyPrecedence | src/videonode_sbc_config/platform/detect.py:57-92 | The family is Rockchip iff the lower-cased compatible names rockchip. It is Raspberry Pi iff not that and the model names raspberry or the compatible names bcm2. It is Allwinner iff neither of those and the compatible names allwinner or sun. |
| PlatformDetect.SpecificChipFirst | src/videonode_sbc_config/platform/detect.py:60-65 | A Rockchip compatible naming `rk3588s` is an RK3588S. An RK3588 result implies `rk3588s` is absent. |
| PlatformDetect.KernelVersion | src/videonode_sbc_config/platform/detect.py:100-105 | The kernel version is empty or a single whitespace-free token. |
| PlatformDetect.KernelVersionIsThirdWord | src/videonode_sbc_config/platform/detect.py:100-105 | For any /proc/version contents, the kernel version is the third whitespace-separated token when there are at least three, else empty. A missing file gives the empty version. |
| PlatformDetect.KernelVersionOfWords | src/videonode_sbc_config/platform/detect.py:100-105 | For /proc/version text made of words, the kernel version is the third word when there are at least three, else empty. |
| PlatformDetect.KernelVersionOfLine | src/videonode_sbc_config/platform/detect.py:100-105 | A file holding words joined by single spaces and ended by a newline gives its third word, or the empty version with fewer than three words. |
| PlatformDetect.DetectPlatform | src/videonode_sbc_config/platform/detect.py:95-114 | The platform combines the OS, board and kernel classifications and never fails. Its model always belongs to its family. |
| VerifyTypes.StatusValueRoundTrip | src/videonode_sbc_config/deploys/verify/types.py:7-13 | There are exactly four statuses. Their values `pass`, `fail`, `info`, `skip` are distinct and read back to the status. |
| VerifyTypes.CheckResultDefaults | src/videonode_sbc_config/deploys/verify/types.py:22-23 | A result built without message or remediation has message `""` and no remediation. |
| CheckRunner.RunCheck | src/videonode_sbc_config/deploys/verify/runner.py:35-52 | The name is kept and the status is never SKIP. With no predicate, the result is INFO with the stripped output and no remediation. Otherwise it is PASS iff the predicate accepts the stripped output, and FAIL iff it rejects it. The message is the matching template rendered with that output. On FAIL the remediation is the one given, possibly none. Otherwise there is none. |
| CheckRunner.RenderMessageIsReplace | src/videonode_sbc_config/deploys/verify/runner.py:42-45 | The guarded template rendering equals replacing every `{result}` by the output. |
| CheckRunner.RenderMessage | src/videonode_sbc_config/deploys/verify/runner.py:42-45 | An empty template gives the empty message. A template without `{result}` is the message unchanged. |
| CheckRunner.RenderAroundPlaceholder | src/videonode_sbc_config/deploys/verify/runner.py:42-45 | A template with one `{result}` between brace-free text renders to that text around the output. |
| RockchipArmbian.Registry | src/videonode_sbc_config/deploys/verify/rockchip_armbian.py:17-159 | The checks are the ten fixed ones in source order, then one per overlay in overlay order, then Cockpit last. |
| RockchipArmbian.RunRegistered | src/videonode_sbc_config/deploys/verify/rockchip_armbian.py:20-157 | Each registered check's result carries the check's name and no remediation. It is INFO iff the check has no predicate. Otherwise it is PASS iff the predicate accepts the stripped probe output, and FAIL iff it rejects it. |
| RockchipArmbian.RegistryNames | src/videonode_sbc_config/deploys/verify/rockchip_armbian.py:20-157 | The thirteen checks carry the listed names in order. |
| RockchipArmbian.GetChecks | src/videonode_sbc_config/deploys/verify/rockchip_armbian.py:10-159 | A non-Rockchip platform gives the single Skip `Not Rockchip`; this test comes first. A Rockchip non-Armbian platform gives the single Skip `Not Armbian`. A supported platform gives 13 results, named in order, none a Skip, none with a remediation. |
| RockchipArmbian.BootDeviceOutcome | src/videonode_sbc_config/deploys/verify/rockchip_armbian.py:20-28 | The boot check passes iff the output is `mmcblk0`, with message `eMMC`. Otherwise it fails with `Not eMMC (<output>)`. |
| RockchipArmbian.EmmcOutcome | src/videonode_sbc_config/deploys/verify/rockchip_armbian.py:31-39 | The eMMC check passes iff the output is not `missing`, with the output as message. Otherwise it fails with `Not found`. |
| RockchipArmbian.PartitionOutcome | src/videonode_sbc_config/deploys/verify/rockchip_armbian.py:42-60 | The partition check passes iff the output is all digits with value at least 95. Otherwise it fails with `Not using full partition`. |
| RockchipArmbian.RootUsageOutcome | src/videonode_sbc_config/deploys/verify/rockchip_armbian.py:63-71 | The usage check passes iff the output stripped of `%` is all digits with value below 90. The message is the output, plus ` (too high)` on failure. |
| RockchipArmbian.LedOutcome | src/videonode_sbc_config/deploys/verify/rockchip_armbian.py:74-93 | Each LED check passes iff the trigger output is `none`. The message is `Disabled` or `LED is on`. |
| RockchipArmbian.EncodersOutcome | src/videonode_sbc_config/deploys/verify/rockchip_armbian.py:96-104 | The encoder check passes iff the output is all digits with value at least 2. The message is the output either way. |
| RockchipArmbian.PermissionOutcome | src/videonode_sbc_config/deploys/verify/rockchip_armbian.py:107-137 | Each device check passes iff the mode string starts with `crw-rw-rw-`. The message is `666` or `Needs fix`. |
| RockchipArmbian.OverlayOutcome | src/videonode_sbc_config/deploys/verify/rockchip_armbian.py:140-146 | Each overlay check is INFO, carries the raw stripped output as message and is named after the overlay. |
| RockchipArmbian.CockpitOutcome | src/videonode_sbc_config/deploys/verify/rockchip_armbian.py:149-157 | The Cockpit check passes iff the output is `active`. The message is `Running` or `Not installed`. |
| RockchipArmbian.WorldReadWriteIsModePrefix | src/videonode_sbc_config/deploys/verify/rockchip_armbian.py:111 | The permission predicate, including its `missing` guard, holds iff the output starts with `crw-rw-rw-`. |
| RockchipArmbian.NumericThresholds | src/videonode_sbc_config/deploys/verify/rockchip_armbian.py:57-100 | On the decimal form of n: partition passes iff n >= 95, encoders iff n >= 2, and root usage of `n%` iff n < 90. |
| RockchipArmbian.PercentStripped | src/videonode_sbc_config/deploys/verify/rockchip_armbian.py:67 | Stripping `%` from digits followed by `%` leaves the digits. |
| RockchipArmbian.EncoderCountExample | src/videonode_sbc_config/deploys/verify/rockchip_armbian.py:96-104 | An encoder count of `3` is a PASS with message `3`. |
| RockchipArmbian.EncoderTextExample | src/videonode_sbc_config/deploys/verify/rockchip_armbian.py:100 | Non-numeric output `abc` is a FAIL rather than an error. |
| Verify.RunAllChecks | src/videonode_sbc_config/deploys/verify/__init__.py:11-15 | A supported platform gets the registry's results (13 of them). Any other gets one Skip named `Platform` with message `Unsupported: ` plus its description. The list is never empty. |
| Verify.SkipIffUnsupported | src/videonode_sbc_config/deploys/verify/__init__.py:11-15 | A Skip appears iff the platform is unsupported, and then it is the only result. |
| Verify.UnsupportedMessageNamesPlatform | src/videonode_sbc_config/deploys/verify/__init__.py:15 | The unsupported message starts with `Unsupported: `, and the rest parses back to the platform's family, model and OS. |
| Verify.UnsupportedExitsZero | src/videonode_sbc_config/deploys/verify/__init__.py:15 | An unsupported platform yields no failures. |
| Verify.FailCount | src/videonode_sbc_config/cli.py:57 | The number of failed results is at most the number of results. |
| Verify.ExitZeroIffNoFailure | src/videonode_sbc_config/cli.py:57-58 | The exit status, the failure count, is zero iff no result is a FAIL. |
| Verify.FailCountSplit | src/videonode_sbc_config/cli.py:57 | The failure count of a concatenation is the sum of the parts' counts. |
| Overlays.FindOverlay | src/videonode_sbc_config/deploys/hardware/rockchip/overlays.py:67-72 | A found overlay has the queried id and is in the list. None is returned iff no overlay has that id. |
| Overlays.FindOverlayFirst | src/videonode_sbc_config/deploys/hardware/rockchip/overlays.py:69-71 | With several matches, the first in list order is returned. |
| Overlays.GetOverlayIds | src/videonode_sbc_config/deploys/hardware/rockchip/overlays.py:75-77 | The ids have the overlays' length and order. |
| Overlays.OverlayIdsDistinct | src/videonode_sbc_config/deploys/hardware/rockchip/overlays.py:23-64 | The two catalogued overlays have distinct ids. |
| Overlays.EveryIdResolves | src/videonode_sbc_config/deploys/hardware/rockchip/overlays.py:67-77 | Every listed id looks up to the overlay at the same position. |
| Overlays.GetOverlay | src/videonode_sbc_config/deploys/hardware/rockchip/overlays.py:67-72 | A found overlay has the queried id and is in the catalogue. Nothing is found iff the id is not among the listed ids. |
| Components.ComponentsForPlatform | src/videonode_sbc_config/ui/components.py:61-66 | The five Rockchip/Armbian components are returned iff both flags hold. Otherwise the list is empty. |
| Components.ComponentDefaults | src/videonode_sbc_config/ui/components.py:11-13 | A component built without them has no scripts, no checks and no submenu. |
| Components.KeysInOrder | src/videonode_sbc_config/ui/components.py:16-58 | The five keys are `1` to `5` in order and pairwise distinct. |
| Components.OnlyOverlaysHaveSubmenu | src/videonode_sbc_config/ui/components.py:35-40 | Only "Kernel overlays" has a submenu, and it has no scripts or checks. |
| Components.FfmpegScriptOrder | src/videonode_sbc_config/ui/components.py:21-25 | The FFmpeg stack runs the mpp, rga and ffmpeg scripts in that order. |
| Components.ComponentChecksAreRegistered | src/videonode_sbc_config/ui/components.py:26-56 | Every check a component names is one the registry emits. |
| BuildUtils.GatheredMembers | src/videonode_sbc_config/deploys/utils.py:69-72 | A package is gathered iff some requested category is known and lists it. |
| BuildUtils.BuildDependencies | src/videonode_sbc_config/deploys/utils.py:67-73 | The result is strictly ascending in code-point order. A package is in it iff some requested, known category lists it. |
| BuildUtils.NoDuplicates | src/videonode_sbc_config/deploys/utils.py:73 | No package appears twice. |
| BuildUtils.SameCategoriesSameResult | src/videonode_sbc_config/deploys/utils.py:69-73 | Requests naming the same categories, in any order or repetition, give the same list. |
| BuildUtils.UnknownCategoryIgnored | src/videonode_sbc_config/deploys/utils.py:71-72 | Requesting an unknown category as well changes nothing. |
| BuildUtils.NoCategoriesNoPackages | src/videonode_sbc_config/deploys/utils.py:67-73 | No categories give the empty list. |
| BuildUtils.MppRgaExample | src/videonode_sbc_config/deploys/utils.py:56-63 | `mpp` and `rga` together give libdrm-dev once, then meson and ninja-build. |
| BuildUtils.BuildDir | src/videonode_sbc_config/deploys/utils.py:26-30 | An empty project gives the base. Otherwise the result is the base, a `/`, then the project. |
| BuildUtils.BuildDirLastSegment | src/videonode_sbc_config/deploys/utils.py:28-29 | A slash-free project name is the last path segment of its build directory. |
| BuildUtils.DefaultBuildDir | src/videonode_sbc_config/deploys/utils.py:26 | With no arguments the build directory is `/root/dev`. |
| LedDisable.ConfigLines | src/videonode_sbc_config/deploys/os/armbian/led_disable.py:25-34 | The configuration has the header line first and four lines per LED. |
| LedDisable.LedConfig | src/videonode_sbc_config/deploys/os/armbian/led_disable.py:25-34 | The generated text is the header line and each LED's four section lines, each ended by a newline. |
| LedDisable.SectionOfLed | src/videonode_sbc_config/deploys/os/armbian/led_disable.py:28-33 | LED i's lines are at positions 1+4i to 4+4i: a blank line, `[path]`, `trigger=none`, a blank line. |
| LedDisable.ConfigReadsBack | src/videonode_sbc_config/deploys/os/armbian/led_disable.py:25-34 | Splitting the generated text gives its lines back. The section headers name the LED paths in order. |
| LedDisable.SbcLedSections | src/videonode_sbc_config/deploys/os/armbian/led_disable.py:17-34 | The board's configuration has sections for the blue LED and then the green LED. |
| LedDisable.LedCommands | src/videonode_sbc_config/deploys/os/armbian/led_disable.py:74-83 | There are four commands per LED. |
| LedDisable.CommandsOfLed | src/videonode_sbc_config/deploys/os/armbian/led_disable.py:74-83 | LED i's commands are at positions 4i to 4i+3: trigger default-on, a pause, trigger none, brightness 0. |
| LedDisable.WriteIsBestEffort | src/videonode_sbc_config/deploys/os/armbian/led_disable.py:78-81 | Every sysfs write command ends in the suffix that discards its errors and forces success (`2>/dev/null`, then or-true). |
| LedDisable.FinalValueIsLastWrite | src/videonode_sbc_config/deploys/os/armbian/led_disable.py:78-81 | The value an attribute ends with is the one its last write stores. It has none iff nothing writes it. |
| LedDisable.BlockLeavesOff | src/videonode_sbc_config/deploys/os/armbian/led_disable.py:78-81 | One LED's commands leave its trigger at `none` and its brightness at `0`. |
| LedDisable.CommandsLeaveLedsOff | src/videonode_sbc_config/deploys/os/armbian/led_disable.py:74-83 | After the whole list, every listed LED ends with trigger `none` and brightness `0`. |
| LedDisable.CommandsLeaveOthers | src/videonode_sbc_config/deploys/os/armbian/led_disable.py:74-83 | No command writes a path that is not a listed LED. |
| LedDisable.BackupCommands | src/videonode_sbc_config/deploys/os/armbian/led_disable.py:58-64 | A backup command is issued iff the restore script exists. |
| LedDisable.BackupCommandWords | src/videonode_sbc_config/deploys/os/armbian/led_disable.py:63 | The backup command is the restore script applied to the config file's `.backup` path. |
| LedDisable.RestoreServiceSettings | src/videonode_sbc_config/deploys/os/armbian/led_disable.py:37-52 | The restore unit's ConditionPathExists is the config file. Its ExecStart is the restore script with the config file. |
| LedDisable.RestoreService | src/videonode_sbc_config/deploys/os/armbian/led_disable.py:37-52 | The unit text splits back into exactly its thirteen lines, from `[Unit]` to `WantedBy=sysinit.target`. |
| LedDisable.RestoreCommandWords | src/videonode_sbc_config/deploys/os/armbian/led_disable.py:47 | ExecStart splits into exactly the restore script and the config file. |
| Alloy.InstalledVersion | src/videonode_sbc_config/deploys/generic/alloy.py:161-170 | A version is known only when the binary exists and the probe printed something, and it is that output stripped. |
| Alloy.NeedsDownload | src/videonode_sbc_config/deploys/generic/alloy.py:161-172 | No download happens iff the binary exists and its stripped version output is `v1.10.1`. |
| Alloy.NothingInstalledDownloads | src/videonode_sbc_config/deploys/generic/alloy.py:162-172 | A missing binary or an empty version output means a download. |
| Alloy.VersionWhitespaceIgnored | src/videonode_sbc_config/deploys/generic/alloy.py:169-172 | Whitespace around the printed version does not change the decision. |
| Alloy.RouteWifi | src/videonode_sbc_config/deploys/generic/alloy.py:148-154 | Without a mappings file the rules are empty and WiFi forwards to the hostname relabel. With one, the rules are its contents and WiFi forwards to the BSSID enrichment. |
| Alloy.CredentialsInRemoteWrite | src/videonode_sbc_config/deploys/generic/alloy.py:88-111 | In the remote-write block the endpoint URL line carries the URL. The basic-auth lines carry the username and token verbatim. |
| Alloy.AlloyConfig | src/videonode_sbc_config/deploys/generic/alloy.py:35-112 | The configuration text contains the URL, username, password and forwarding lines and the BSSID rules, and holds the `wifi_metrics` scrape header, its targets line and its forwarding line together as one run of consecutive lines. |
| Alloy.ConfigRoutesWifi | src/videonode_sbc_config/deploys/generic/alloy.py:67-75 | Two lines after the `wifi_metrics` scrape header, right after its targets line, comes its forwarding line: to the BSSID enrichment receiver when a mappings file is given, to the hostname relabel receiver when not. The text holds that three-line block, and includes a mappings file's contents. |
| Alloy.ServiceSettings | src/videonode_sbc_config/deploys/generic/alloy.py:115-134 | For any install directory without line breaks, the unit's WorkingDirectory is that directory and its ExecStart is the `alloy run` command line. |
| Alloy.AlloyService | src/videonode_sbc_config/deploys/generic/alloy.py:115-134 | For an install directory without line breaks, the unit text splits back into exactly its lines. |
| Alloy.ExecWords | src/videonode_sbc_config/deploys/generic/alloy.py:124 | ExecStart splits into `<dir>/alloy`, `run`, the listen-address flag and `<dir>/config.alloy`. |
| Alloy.CheckArgs | src/videonode_sbc_config/deploys/generic/alloy.py:246-261 | The deploy installs iff token, username and URL are all present and non-empty, and passes them on unchanged. Otherwise it exits with status 1. |

## Left out

- Real I/O. These are not executed:
  - the `subprocess.run` call in `run_check`;
  - the `Path.exists` and `read_text` calls in detection;
  - the pyinfra facts (`File`, `Home`, `Command`) and the BSSID mappings file.

  Their results are parameters: `stdout`, `shell`, `SystemFiles`, `binaryExists`, `versionOutput` and `mappings`.
- PlatformDetect.ReadFile: reading errors other than a missing file or a permission error propagate in Python. The model has no such case: every file is either readable text or None.
- Unicode behaviour of `strip`, `split`, `splitlines`, `lower`, `isdigit` and `int`. The model works on ASCII; non-ASCII digits and whitespace are not modelled.
- The verbatim text of the two overlay device-tree sources. It is carried as `Overlays.Dts` values with a `Text()` rendering. The properties concern ids and lookup, not DTS contents.
- The shell text of the LED commands. It is carried as structured `LedDisable.LedStep` values whose `Command()` renders the exact line. The properties concern their order, targets and final values.
- Whether the shell commands of the checks do what their text says. Only their outputs, as given by `shell`, are modelled.
- The pyinfra operation bodies and their gating (`_if`, `did_change`). This covers mpp, rga, ffmpeg, stack, permissions, led_permissions and cockpit, and the operation sequences of the LED and Alloy deploys. Their semantics live in pyinfra.
- `kernel_overlays.py`. Its boot-config update is a grep/sed shell string that appends without deduplication. It also imports a function `overlays.py` does not define and runs script code at module level.
- `cli.py` beyond the exit status, and `ui/dashboard.py`. These are command-line parsing, JSON output and terminal rendering.
- Verify.ExitZeroIffNoFailure: the operating system takes the exit status modulo 256. That is not modelled; there are at most 13 results, so it never matters.
- `get_parallel_jobs` and `ensure_build_dir`, which depend on `os.cpu_count` and a pyinfra operation.
- Alloy.CheckArgs: `host.data` values are modelled as optional strings. Python truthiness of non-string values, and the `str(...)` conversion, are not modelled.
- The `logger` messages of the Alloy deploy.
