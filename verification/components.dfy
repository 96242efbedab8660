/** The installable components the interactive dashboard offers. */
module Components {
  import opened RockchipArmbian

  /** A menu entry; scripts and checks default to empty and there is no submenu. */
  datatype InstallableComponent = InstallableComponent(
    key: string,
    name: string,
    helpText: string,
    scripts: seq<string> := [],
    checks: seq<string> := [],
    hasSubmenu: bool := false)

  /** The components for a Rockchip board running Armbian, in menu order. */
  const RockchipArmbianComponents: seq<InstallableComponent> := [
    InstallableComponent("1", "FFmpeg stack", "MPP/RGA hardware encoding",
      ["hardware/rockchip/mpp.py", "hardware/rockchip/rga.py", "hardware/rockchip/ffmpeg.py"],
      ["FFmpeg encoders"]),
    InstallableComponent("2", "Device permissions", "MPP/RGA/DMA device access",
      ["hardware/rockchip/permissions.py"],
      ["MPP permissions", "RGA permissions", "DMA heap permissions"]),
    InstallableComponent("3", "Kernel overlays", "Device tree overlays", hasSubmenu := true),
    InstallableComponent("4", "LED control", "Disable status LEDs",
      ["generic/led_permissions.py", "os/armbian/led_disable.py"],
      ["Blue LED", "Green LED"]),
    InstallableComponent("5", "Cockpit", "Web management panel",
      ["generic/cockpit.py"],
      ["Cockpit"])
  ]

  /** The menu for a platform: the five components on Rockchip with Armbian, nothing otherwise. */
  function ComponentsForPlatform(isRockchip: bool, isArmbian: bool): (r: seq<InstallableComponent>)
    ensures r == RockchipArmbianComponents <==> isRockchip && isArmbian
    ensures r == [] <==> !(isRockchip && isArmbian)
  {
    if isRockchip && isArmbian then RockchipArmbianComponents else []
  }

  /** A component built from key, name and help text alone has no scripts, no checks and no submenu. */
  lemma ComponentDefaults(key: string, name: string, help: string)
    ensures var c := InstallableComponent(key, name, help);
      c.scripts == [] && c.checks == [] && !c.hasSubmenu
  {
  }

  /** The keys are `1` to `5` in menu order, so no two components share a key. */
  lemma KeysInOrder()
    ensures |RockchipArmbianComponents| == 5
    ensures forall i :: 0 <= i < 5 ==> RockchipArmbianComponents[i].key == [('1' as int + i) as char]
    ensures forall i, j :: 0 <= i < j < 5 ==> RockchipArmbianComponents[i].key != RockchipArmbianComponents[j].key
  {
    forall i, j | 0 <= i < j < 5
      ensures RockchipArmbianComponents[i].key != RockchipArmbianComponents[j].key
    {
      assert RockchipArmbianComponents[i].key[0] != RockchipArmbianComponents[j].key[0];
    }
  }

  /** Only "Kernel overlays" opens a submenu, and it runs no scripts and names no checks. */
  lemma OnlyOverlaysHaveSubmenu()
    ensures forall i :: 0 <= i < |RockchipArmbianComponents| ==>
      (RockchipArmbianComponents[i].hasSubmenu <==> RockchipArmbianComponents[i].name == "Kernel overlays")
    ensures forall i :: 0 <= i < |RockchipArmbianComponents| && RockchipArmbianComponents[i].hasSubmenu ==>
      RockchipArmbianComponents[i].scripts == [] && RockchipArmbianComponents[i].checks == []
  {
  }

  /** The FFmpeg stack builds MPP, then RGA, then FFmpeg. */
  lemma FfmpegScriptOrder()
    ensures RockchipArmbianComponents[0].name == "FFmpeg stack"
    ensures RockchipArmbianComponents[0].scripts ==
      ["hardware/rockchip/mpp.py", "hardware/rockchip/rga.py", "hardware/rockchip/ffmpeg.py"]
  {
  }

  /** Every check a component points at is one the Rockchip/Armbian registry reports. */
  lemma ComponentChecksAreRegistered()
    ensures forall i, k :: 0 <= i < |RockchipArmbianComponents| && 0 <= k < |RockchipArmbianComponents[i].checks| ==>
      RockchipArmbianComponents[i].checks[k] in CheckNames
  {
    forall i, k | 0 <= i < |RockchipArmbianComponents| && 0 <= k < |RockchipArmbianComponents[i].checks|
      ensures RockchipArmbianComponents[i].checks[k] in CheckNames
    {
      ComponentCheckRegistered(i, k);
    }
  }

  lemma ComponentCheckRegistered(i: nat, k: nat)
    requires i < |RockchipArmbianComponents| && k < |RockchipArmbianComponents[i].checks|
    ensures RockchipArmbianComponents[i].checks[k] in CheckNames
  {
    var names := CheckNames;
    if i == 0 {
      assert names[6] == "FFmpeg encoders";
    } else if i == 1 {
      assert names[7] == "MPP permissions" && names[8] == "RGA permissions" && names[9] == "DMA heap permissions";
    } else if i == 3 {
      assert names[4] == "Blue LED" && names[5] == "Green LED";
    } else if i == 4 {
      assert names[12] == "Cockpit";
    }
  }
}
