/**
 * The Grafana Alloy metrics deploy: the configuration and systemd unit it
 * writes, whether it downloads the binary, where WiFi metrics are routed, and
 * the check of its required arguments.
 */
module Alloy {
  import opened Wrappers
  import opened Text
  import opened Lines
  import opened UnitFiles

  const AlloyVersion := "v1.10.1"

  // ---------------------------------------------------------------- download decision

  /**
   * The version found on the host: only when the binary exists and the version
   * probe printed something, and then with surrounding whitespace stripped.
   */
  function InstalledVersion(binaryExists: bool, versionOutput: Option<string>): (r: Option<string>)
    ensures r.Some? ==> binaryExists && versionOutput.Some? && r.value == Strip(versionOutput.value)
    ensures r.None? ==> !binaryExists || versionOutput.None? || versionOutput.value == ""
  {
    if binaryExists && versionOutput.Some? && versionOutput.value != "" then Some(Strip(versionOutput.value))
    else None
  }

  /** The binary is downloaded unless the installed version is the pinned one. */
  function NeedsDownload(binaryExists: bool, versionOutput: Option<string>): (r: bool)
    ensures !r <==> binaryExists && versionOutput.Some? && Strip(versionOutput.value) == AlloyVersion
  {
    var current := InstalledVersion(binaryExists, versionOutput);
    assert Strip("") == "";
    current != Some(AlloyVersion)
  }

  /** Without the binary, or with no version printed, the binary is downloaded. */
  lemma NothingInstalledDownloads(binaryExists: bool, versionOutput: Option<string>)
    requires !binaryExists || versionOutput.None? || versionOutput == Some("")
    ensures NeedsDownload(binaryExists, versionOutput)
  {
    assert Strip("") == "";
  }

  /** Whitespace around the printed version does not change the decision. */
  lemma VersionWhitespaceIgnored(binaryExists: bool, out: string)
    ensures NeedsDownload(binaryExists, Some(out)) == NeedsDownload(binaryExists, Some(Strip(out)))
  {
    StripIdempotent(out);
  }

  // ---------------------------------------------------------------- WiFi routing

  const AddHostnameReceiver := "prometheus.relabel.add_hostname.receiver"
  const BssidEnrichmentReceiver := "prometheus.relabel.wifi_bssid_enrichment.receiver"

  /** The BSSID relabel rules spliced into the configuration and where WiFi metrics go. */
  datatype WifiRouting = WifiRouting(bssidRules: string, forwardTo: string)

  /**
   * Without a mappings file there are no rules and WiFi metrics go straight to
   * the hostname relabel; with one, its contents are the rules and WiFi
   * metrics go through the BSSID enrichment first.
   */
  function RouteWifi(mappings: Option<string>): (r: WifiRouting)
    ensures mappings.None? ==> r.bssidRules == ""
    ensures mappings.Some? ==> r.bssidRules == mappings.value
    ensures r.forwardTo == BssidEnrichmentReceiver <==> mappings.Some?
    ensures r.forwardTo == AddHostnameReceiver <==> mappings.None?
  {
    match mappings
    case None => WifiRouting("", AddHostnameReceiver)
    case Some(content) =>
      assert |AddHostnameReceiver| != |BssidEnrichmentReceiver|;
      WifiRouting(content, BssidEnrichmentReceiver)
  }

  // ---------------------------------------------------------------- configuration

  function ForwardLine(forwardTo: string): string {
    "  forward_to = [" + forwardTo + "]"
  }

  function UrlLine(url: string): string {
    "      url  = \"" + url + "\""
  }

  function UsernameLine(username: string): string {
    "        username = \"" + username + "\""
  }

  function PasswordLine(token: string): string {
    "        password = \"" + token + "\""
  }

  const LocalScrape: seq<string> := [
    "// Prometheus scrape configuration for local services",
    "prometheus.scrape \"videonode\" {",
    "  targets = [{",
    "    __address__ = \"localhost:8090\",",
    "  }]",
    "  metrics_path = \"/metrics\"",
    "  forward_to = [prometheus.relabel.add_hostname.receiver]",
    "  scrape_interval = \"10s\"",
    "  scrape_timeout = \"8s\"",
    "}",
    ""
  ]

  const NodeExporter: seq<string> := [
    "// Node metrics - CPU and hardware monitoring",
    "prometheus.exporter.unix \"node\" {",
    "  include_exporter_metrics = true",
    "  disable_collectors = [\"arp\", \"bonding\", \"conntrack\", \"diskstats\", \"edac\", \"entropy\", \"fibrechannel\", \"filesystem\", \"infiniband\", \"ipvs\", \"loadavg\", \"mdadm\", \"meminfo\", \"netclass\", \"netstat\", \"nfs\", \"nfsd\", \"pressure\", \"rapl\", \"schedstat\", \"sockstat\", \"softnet\", \"stat\", \"textfile\", \"time\", \"timex\", \"udp_queues\", \"uname\", \"vmstat\", \"xfs\", \"zfs\"]",
    "  enable_collectors = [\"cpu\", \"hwmon\"]",
    "}",
    "",
    "prometheus.scrape \"node_metrics\" {",
    "  targets = prometheus.exporter.unix.node.targets",
    "  forward_to = [prometheus.relabel.add_hostname.receiver]",
    "  scrape_interval = \"30s\"",
    "  scrape_timeout = \"25s\"",
    "}",
    ""
  ]

  const WifiExporter: seq<string> := [
    "// WiFi and network metrics",
    "prometheus.exporter.unix \"wifi\" {",
    "  include_exporter_metrics = true",
    "  disable_collectors = [\"arp\", \"bonding\", \"conntrack\", \"cpu\", \"diskstats\", \"edac\", \"entropy\", \"fibrechannel\", \"filesystem\", \"hwmon\", \"infiniband\", \"ipvs\", \"loadavg\", \"mdadm\", \"meminfo\", \"netclass\", \"nfs\", \"nfsd\", \"pressure\", \"rapl\", \"schedstat\", \"sockstat\", \"softnet\", \"stat\", \"textfile\", \"time\", \"timex\", \"udp_queues\", \"uname\", \"vmstat\", \"xfs\", \"zfs\"]",
    "  enable_collectors = [\"wifi\", \"netdev\"]",
    "}",
    ""
  ]

  /** The opening line of the WiFi scrape block, and its targets line. */
  const WifiScrapeHeader := "prometheus.scrape \"wifi_metrics\" {"
  const WifiTargets := "  targets = prometheus.exporter.unix.wifi.targets"

  function WifiScrape(forwardTo: string): seq<string> {
    [
      WifiScrapeHeader,
      WifiTargets,
      ForwardLine(forwardTo),
      "  scrape_interval = \"30s\"",
      "  scrape_timeout = \"25s\"",
      "}",
      ""
    ]
  }

  const AddHostname: seq<string> := [
    "// Add hostname label to all metrics",
    "prometheus.relabel \"add_hostname\" {",
    "  forward_to = [prometheus.remote_write.metrics_hosted_prometheus.receiver]",
    "",
    "  rule {",
    "    replacement = constants.hostname",
    "    target_label = \"hostname\"",
    "  }",
    "}",
    ""
  ]

  function RemoteWrite(url: string, username: string, token: string): seq<string> {
    [
      "// Remote write to Grafana Cloud",
      "prometheus.remote_write \"metrics_hosted_prometheus\" {",
      "   endpoint {",
      "      name = \"hosted-prometheus\"",
      UrlLine(url),
      "",
      "      send_exemplars = false",
      "      send_native_histograms = false",
      "",
      "      queue_config {",
      "        capacity = 10000",
      "        max_shards = 1",
      "        min_shards = 1",
      "        max_samples_per_send = 500",
      "        batch_send_deadline = \"30s\"",
      "        min_backoff = \"1s\"",
      "        max_backoff = \"30s\"",
      "      }",
      "",
      "      basic_auth {",
      UsernameLine(username),
      PasswordLine(token),
      "      }",
      "   }",
      "}"
    ]
  }

  /** A blank line, then the local, node and WiFi exporter blocks: the part that takes no arguments. */
  const ScrapeBlocks: seq<string> := [""] + LocalScrape + NodeExporter + WifiExporter

  /** Everything before the remote write: the WiFi scrape, the BSSID rules, the hostname relabel. */
  function ConfigHead(bssidRules: string, forwardTo: string): seq<string> {
    ScrapeBlocks + WifiScrape(forwardTo) + [bssidRules, ""] + AddHostname
  }

  /** The configuration's lines, in template order. */
  function ConfigLines(url: string, username: string, token: string, bssidRules: string, forwardTo: string)
    : seq<string>
  {
    ConfigHead(bssidRules, forwardTo) + RemoteWrite(url, username, token)
  }

  /**
   * `_get_alloy_config`: every line of the template followed by a newline. The
   * text contains each credential line, the WiFi forwarding line and the rules.
   */
  function AlloyConfig(url: string, username: string, token: string, bssidRules: string, forwardTo: string)
    : (r: string)
    ensures Contains(r, UrlLine(url))
    ensures Contains(r, UsernameLine(username))
    ensures Contains(r, PasswordLine(token))
    ensures Contains(r, ForwardLine(forwardTo))
    ensures Contains(r, WifiScrapeHeader + "\n" + WifiTargets + "\n" + ForwardLine(forwardTo) + "\n")
    ensures Contains(r, bssidRules)
  {
    LinesContainSettings(url, username, token, bssidRules, forwardTo);
    WifiBlockInLines(url, username, token, bssidRules, forwardTo);
    Unlines(ConfigLines(url, username, token, bssidRules, forwardTo))
  }

  /** Where the remote-write block starts among the configuration's lines. */
  const RemoteWriteStart := 52

  /** Where the WiFi scrape's forwarding line and the BSSID rules sit. */
  const ForwardIndex := 35
  const RulesIndex := 40

  lemma ScrapeBlocksSize()
    ensures |ScrapeBlocks| == 33
  {
    assert |LocalScrape| == 11;
    assert |NodeExporter| == 14;
    assert |WifiExporter| == 7;
  }

  lemma AddHostnameSize()
    ensures |AddHostname| == 10
  {
  }

  lemma WifiScrapeForward(forwardTo: string)
    ensures |WifiScrape(forwardTo)| == 7
    ensures WifiScrape(forwardTo)[0] == WifiScrapeHeader && WifiScrape(forwardTo)[1] == WifiTargets
    ensures WifiScrape(forwardTo)[2] == ForwardLine(forwardTo)
  {
  }

  /** The rules and the forwarding line at their places before the remote write. */
  lemma ConfigHeadLayout(rules: string, fwd: string)
    ensures var h := ConfigHead(rules, fwd);
      && |h| == RemoteWriteStart
      && h[ForwardIndex - 2] == WifiScrapeHeader && h[ForwardIndex - 1] == WifiTargets
      && h[ForwardIndex] == ForwardLine(fwd) && h[RulesIndex] == rules
  {
    ScrapeBlocksSize();
    AddHostnameSize();
    WifiScrapeForward(fwd);
    var w := ScrapeBlocks + WifiScrape(fwd);
    assert w[ForwardIndex - 2] == WifiScrape(fwd)[0];
    assert w[ForwardIndex - 1] == WifiScrape(fwd)[1];
    assert w[ForwardIndex] == WifiScrape(fwd)[2];
    var r := w + [rules, ""];
    assert r[RulesIndex] == rules;
    assert ConfigHead(rules, fwd) == r + AddHostname;
  }

  /** The remote-write block: its header, the endpoint URL and the basic-authentication credentials. */
  lemma RemoteWriteLayout(url: string, username: string, token: string)
    ensures var rw := RemoteWrite(url, username, token);
      && |rw| == 25
      && rw[1] == "prometheus.remote_write \"metrics_hosted_prometheus\" {"
      && rw[4] == UrlLine(url)
      && rw[19] == "      basic_auth {"
      && rw[20] == UsernameLine(username)
      && rw[21] == PasswordLine(token)
  {
  }

  /**
   * The credentials sit verbatim in the remote-write block: the URL in its
   * endpoint, the username and token in its basic authentication.
   */
  lemma CredentialsInRemoteWrite(url: string, username: string, token: string, rules: string, fwd: string)
    ensures var ls := ConfigLines(url, username, token, rules, fwd);
      && |ls| == RemoteWriteStart + 25
      && ls[RemoteWriteStart + 1] == "prometheus.remote_write \"metrics_hosted_prometheus\" {"
      && ls[RemoteWriteStart + 4] == UrlLine(url)
      && ls[RemoteWriteStart + 19] == "      basic_auth {"
      && ls[RemoteWriteStart + 20] == UsernameLine(username)
      && ls[RemoteWriteStart + 21] == PasswordLine(token)
  {
    ConfigHeadLayout(rules, fwd);
    RemoteWriteLayout(url, username, token);
    var rw := RemoteWrite(url, username, token);
    assert ConfigLines(url, username, token, rules, fwd)[RemoteWriteStart..] == rw;
  }

  lemma LinesContainSettings(url: string, username: string, token: string, rules: string, fwd: string)
    ensures var cfg := Unlines(ConfigLines(url, username, token, rules, fwd));
      && Contains(cfg, UrlLine(url))
      && Contains(cfg, UsernameLine(username))
      && Contains(cfg, PasswordLine(token))
      && Contains(cfg, ForwardLine(fwd))
      && Contains(cfg, rules)
  {
    var ls := ConfigLines(url, username, token, rules, fwd);
    CredentialsInRemoteWrite(url, username, token, rules, fwd);
    ConfigHeadLayout(rules, fwd);
    assert ls[ForwardIndex] == ForwardLine(fwd);
    assert ls[RulesIndex] == rules;
    UnlinesContains(ls, RemoteWriteStart + 4);
    UnlinesContains(ls, RemoteWriteStart + 20);
    UnlinesContains(ls, RemoteWriteStart + 21);
    UnlinesContains(ls, ForwardIndex);
    UnlinesContains(ls, RulesIndex);
  }

  /**
   * The WiFi scrape forwards to the target the routing chose: the line after
   * the `wifi_metrics` header and its targets is the forwarding line for the
   * enrichment receiver with a mappings file and for the hostname relabel
   * without one. A mappings file's rules are included.
   */
  lemma ConfigRoutesWifi(url: string, username: string, token: string, mappings: Option<string>)
    ensures var w := RouteWifi(mappings);
      var ls := ConfigLines(url, username, token, w.bssidRules, w.forwardTo);
      && |ls| > ForwardIndex
      && ls[ForwardIndex - 2] == WifiScrapeHeader
      && ls[ForwardIndex - 1] == WifiTargets
      && ls[ForwardIndex] == ForwardLine(if mappings.Some? then BssidEnrichmentReceiver else AddHostnameReceiver)
    ensures var w := RouteWifi(mappings);
      var cfg := AlloyConfig(url, username, token, w.bssidRules, w.forwardTo);
      && Contains(cfg, ForwardLine(if mappings.Some? then BssidEnrichmentReceiver else AddHostnameReceiver))
      && Contains(cfg, WifiScrapeHeader + "\n" + WifiTargets + "\n"
                       + ForwardLine(if mappings.Some? then BssidEnrichmentReceiver else AddHostnameReceiver) + "\n")
      && (mappings.Some? ==> Contains(cfg, mappings.value))
  {
    var w := RouteWifi(mappings);
    var h := ConfigHead(w.bssidRules, w.forwardTo);
    ConfigHeadLayout(w.bssidRules, w.forwardTo);
    HeadLinesKept(h, RemoteWrite(url, username, token));
  }

  /** The WiFi scrape's header, targets and forwarding lines appear together in the text. */
  lemma WifiBlockInLines(url: string, username: string, token: string, rules: string, fwd: string)
    ensures Contains(Unlines(ConfigLines(url, username, token, rules, fwd)),
                     WifiScrapeHeader + "\n" + WifiTargets + "\n" + ForwardLine(fwd) + "\n")
  {
    var ls := ConfigLines(url, username, token, rules, fwd);
    var h := ConfigHead(rules, fwd);
    ConfigHeadLayout(rules, fwd);
    HeadLinesKept(h, RemoteWrite(url, username, token));
    SliceOfThree(ls, ForwardIndex - 2, WifiScrapeHeader, WifiTargets, ForwardLine(fwd));
    UnlinesContainsRun(ls, ForwardIndex - 2, ForwardIndex + 1);
    Unlines3(WifiScrapeHeader, WifiTargets, ForwardLine(fwd));
  }

  /** Lines before the remote-write block are the head's lines. */
  lemma HeadLinesKept(h: seq<string>, rw: seq<string>)
    requires |h| == RemoteWriteStart
    ensures forall i :: 0 <= i < |h| ==> (h + rw)[i] == h[i]
  {
  }

  // ---------------------------------------------------------------- systemd unit

  /** `--server.http.listen-addr=0.0.0.0:12345`, written in pieces short enough to reason about. */
  const ListenFlag := FlagScope + FlagName + ListenAddress
  const FlagScope := "--server.http."
  const FlagName := "listen-addr="
  const ListenAddress := "0.0.0.0:12345"

  /** The command the unit runs: the binary in `dir`, listening on port 12345, with the configuration in `dir`. */
  function ExecCommand(dir: string): string {
    dir + "/alloy run " + ListenFlag + " " + dir + "/config.alloy"
  }

  const AlloyDescription := "Grafana Alloy Metrics Collector"

  /** The unit section and the start of the service section, before the install directory appears. */
  const ServiceHead: seq<string> := [
    "[Unit]",
    "Description=" + AlloyDescription,
    "After=network-online.target",
    "",
    "[Service]",
    "Type=simple"
  ]

  /** The restart policy, resource limits and install section. */
  const ServiceTail: seq<string> := [
    "Restart=on-failure",
    "RestartSec=10",
    "",
    "# Performance settings",
    "LimitNOFILE=65536",
    "LimitNPROC=32768",
    "",
    "[Install]",
    "WantedBy=default.target"
  ]

  /** The lines of `_get_systemd_service` for the install directory `dir`. */
  function ServiceLines(dir: string): seq<string> {
    ServiceHead + ["WorkingDirectory=" + dir, "ExecStart=" + ExecCommand(dir)] + ServiceTail
  }

  /**
   * `_get_systemd_service`: the user unit running Alloy from `dir`; for a
   * directory without line breaks it reads back as exactly its lines.
   */
  function AlloyService(dir: string): (r: string)
    ensures NoLineBreak(dir) ==> SplitLines(r) == ServiceLines(dir)
  {
    if NoLineBreak(dir) then
      ServiceSplits(dir);
      Unlines(ServiceLines(dir))
    else Unlines(ServiceLines(dir))
  }

  /**
   * Read back, the unit works in the install directory and starts the binary
   * there on the configuration there.
   */
  lemma ServiceSettings(dir: string)
    requires NoLineBreak(dir)
    ensures Setting(SplitLines(AlloyService(dir)), "WorkingDirectory") == Some(dir)
    ensures Setting(SplitLines(AlloyService(dir)), "ExecStart") == Some(ExecCommand(dir))
  {
    WorkingDirectorySetting(dir);
    ExecStartSetting(dir);
  }

  lemma ServiceSplits(dir: string)
    requires NoLineBreak(dir)
    ensures SplitLines(Unlines(ServiceLines(dir))) == ServiceLines(dir)
  {
    var ls := ServiceLines(dir);
    forall k | 0 <= k < |ls| ensures NoLineBreak(ls[k]) {
      ServiceLineClean(dir, k);
    }
    SplitUnlines(ls);
  }

  lemma WorkingDirectorySetting(dir: string)
    ensures Setting(ServiceLines(dir), "WorkingDirectory") == Some(dir)
  {
    var ls := ServiceLines(dir);
    forall j | 0 <= j < 6 ensures !StartsWith(ls[j], "WorkingDirectory=") {
      NotStartsWith(ls[j], "WorkingDirectory=");
    }
    SettingAt(ls, "WorkingDirectory", 6, dir);
  }

  lemma ExecStartSetting(dir: string)
    ensures Setting(ServiceLines(dir), "ExecStart") == Some(ExecCommand(dir))
  {
    var ls := ServiceLines(dir);
    forall j | 0 <= j < 7 ensures !StartsWith(ls[j], "ExecStart=") {
      NotStartsWith(ls[j], "ExecStart=");
    }
    SettingAt(ls, "ExecStart", 7, ExecCommand(dir));
  }

  lemma ServiceLineClean(dir: string, k: nat)
    requires NoLineBreak(dir) && k < |ServiceLines(dir)|
    ensures NoLineBreak(ServiceLines(dir)[k])
  {
    var ls := ServiceLines(dir);
    assert |ServiceHead| == 6;
    if k < 6 {
      assert ls[k] == ServiceHead[k];
      HeadLineClean(k);
    } else if k == 6 {
      NoLineBreakAppend("WorkingDirectory=", dir);
    } else if k == 7 {
      ExecCommandClean(dir);
      NoLineBreakAppend("ExecStart=", ExecCommand(dir));
    } else {
      assert ls[k] == ServiceTail[k - 8];
      TailLineClean(k - 8);
    }
  }

  lemma HeadLineClean(k: nat)
    requires k < |ServiceHead|
    ensures NoLineBreak(ServiceHead[k])
  {
    if k == 1 {
      DescriptionClean();
    }
  }

  lemma TailLineClean(k: nat)
    requires k < |ServiceTail|
    ensures NoLineBreak(ServiceTail[k])
  {
  }

  lemma DescriptionClean()
    ensures NoLineBreak("Description=" + AlloyDescription)
  {
    DescriptionKeyClean();
    AlloyDescriptionClean();
    NoLineBreakAppend("Description=", AlloyDescription);
  }

  lemma DescriptionKeyClean() ensures NoLineBreak("Description=") {}
  lemma AlloyDescriptionClean() ensures NoLineBreak(AlloyDescription) {}

  lemma ListenFlagIsWord()
    ensures IsWord(ListenFlag)
  {
    FlagScopeClean();
    FlagNameClean();
    ListenAddressClean();
    NoSpaceAppend(FlagScope, FlagName);
    NoSpaceAppend(FlagScope + FlagName, ListenAddress);
  }

  lemma FlagScopeClean() ensures NoSpace(FlagScope) {}
  lemma FlagNameClean() ensures NoSpace(FlagName) {}
  lemma ListenAddressClean() ensures NoSpace(ListenAddress) {}

  /** The words of the command. */
  function ExecArgs(dir: string): seq<string> {
    [dir + "/alloy", "run", ListenFlag, dir + "/config.alloy"]
  }

  /** Split into words, the start command is the binary, `run`, the listen flag and the configuration file. */
  lemma ExecWords(dir: string)
    requires IsWord(dir)
    ensures Words(ExecCommand(dir)) == ExecArgs(dir)
    ensures forall k :: 0 <= k < 4 ==> IsWord(ExecArgs(dir)[k])
  {
    ExecArgsAreWords(dir);
    ExecArgsJoined(dir);
    WordsJoin(ExecArgs(dir));
  }

  lemma ExecArgsAreWords(dir: string)
    requires IsWord(dir)
    ensures forall k :: 0 <= k < 4 ==> IsWord(ExecArgs(dir)[k])
  {
    assert NoSpace("/alloy") && NoSpace("run") && NoSpace("/config.alloy");
    NoSpaceAppend(dir, "/alloy");
    NoSpaceAppend(dir, "/config.alloy");
    ListenFlagIsWord();
  }

  lemma ExecArgsJoined(dir: string)
    ensures Join(ExecArgs(dir), " ") == ExecCommand(dir)
  {
    var ws := ExecArgs(dir);
    assert Join(ws[3..], " ") == dir + "/config.alloy";
    assert Join(ws[2..], " ") == ListenFlag + " " + (dir + "/config.alloy");
    assert Join(ws[1..], " ") == "run" + " " + (ListenFlag + " " + (dir + "/config.alloy"));
  }

  lemma ExecCommandClean(dir: string)
    requires NoLineBreak(dir)
    ensures NoLineBreak(ExecCommand(dir))
  {
    ListenFlagIsWord();
    NoSpaceNoLineBreak(ListenFlag);
    assert NoLineBreak("/alloy run ") && NoLineBreak(" ") && NoLineBreak("/config.alloy");
    NoLineBreakAppend(dir, "/alloy run ");
    NoLineBreakAppend(dir + "/alloy run ", ListenFlag);
    NoLineBreakAppend(dir + "/alloy run " + ListenFlag, " ");
    NoLineBreakAppend(dir + "/alloy run " + ListenFlag + " ", dir);
    NoLineBreakAppend(dir + "/alloy run " + ListenFlag + " " + dir, "/config.alloy");
  }

  // ---------------------------------------------------------------- required arguments

  /** What running the deploy script does with its arguments. */
  datatype ArgsOutcome =
    | MissingConfig
    | Install(token: string, username: string, url: string)
  {
    /** The process exit status when the script stops here. */
    function ExitCode(): int {
      if MissingConfig? then 1 else 0
    }
  }

  /** Python truthiness of an optional string: present and non-empty. */
  predicate Given(v: Option<string>) {
    v.Some? && v.value != ""
  }

  /** The script installs only when token, username and URL are all given, and otherwise exits with status 1. */
  function CheckArgs(token: Option<string>, username: Option<string>, url: Option<string>): (r: ArgsOutcome)
    ensures r.Install? <==> Given(token) && Given(username) && Given(url)
    ensures r.Install? ==> r.token == token.value && r.username == username.value && r.url == url.value
    ensures r.MissingConfig? <==> r.ExitCode() == 1
  {
    if Given(token) && Given(username) && Given(url) then Install(token.value, username.value, url.value)
    else MissingConfig
  }
}
