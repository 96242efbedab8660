/** The device-tree overlays known for RK3588 boards, and lookup by id. */
module Overlays {
  import opened Wrappers

  /** The device-tree source an overlay compiles; `Text` gives it verbatim. */
  datatype Dts = UsbOtgHost | HdmiRxOff {
    function Text(): string {
      match this
      case UsbOtgHost => @"/dts-v1/;
/plugin/;

/ {
    compatible = ""rockchip,rk3588"", ""rockchip,rk3588s"";

    fragment@0 {
        target-path = ""/usbdrd3_0/usb@fc000000"";
        __overlay__ {
            dr_mode = ""host"";
            /delete-property/ extcon;
            status = ""okay"";
        };
    };
};
"
      case HdmiRxOff => @"/dts-v1/;
/plugin/;

/ {
    compatible = ""rockchip,rk3588"", ""rockchip,rk3588s"";

    fragment@0 {
        target-path = ""/hdmirx-controller@fdee0000"";
        __overlay__ {
            status = ""disabled"";
        };
    };
};
"
    }
  }

  datatype Overlay = Overlay(id: string, name: string, description: string, dts: Dts)

  const UsbHostMode := Overlay(
    "usb-host-mode",
    "USB host mode",
    "Force USB OTG port to host mode",
    UsbOtgHost)

  const DisableHdmiRx := Overlay(
    "disable-hdmirx",
    "Disable HDMI RX",
    "Disable HDMI receiver (stops error spam)",
    HdmiRxOff)

  /** `OVERLAYS`, in declaration order. */
  const AllOverlays: seq<Overlay> := [UsbHostMode, DisableHdmiRx]

  /** The first overlay of `list` whose id is `id`, or none. */
  function FindOverlay(list: seq<Overlay>, id: string): (r: Option<Overlay>)
    ensures r.None? <==> forall k :: 0 <= k < |list| ==> list[k].id != id
    ensures r.Some? ==> r.value.id == id && r.value in list
  {
    if list == [] then None
    else if list[0].id == id then Some(list[0])
    else
      assert forall k :: 1 <= k < |list| ==> list[k] == list[1..][k - 1];
      FindOverlay(list[1..], id)
  }

  /** With several overlays sharing an id, the first in list order is returned. */
  lemma {:induction false} FindOverlayFirst(list: seq<Overlay>, id: string, k: nat)
    requires k < |list| && list[k].id == id
    requires forall m :: 0 <= m < k ==> list[m].id != id
    ensures FindOverlay(list, id) == Some(list[k])
    decreases k
  {
    if k > 0 {
      assert forall m :: 0 <= m < k - 1 ==> list[1..][m] == list[m + 1];
      FindOverlayFirst(list[1..], id, k - 1);
    }
  }

  /** `get_overlay`: the catalogued overlay with that id, or nothing when no listed id matches. */
  function GetOverlay(id: string): (r: Option<Overlay>)
    ensures r.Some? ==> r.value.id == id && r.value in AllOverlays
    ensures r.None? <==> id !in GetOverlayIds()
  {
    FindOverlay(AllOverlays, id)
  }

  /** `get_overlay_ids`: the ids of `OVERLAYS`, in order. */
  function GetOverlayIds(): (ids: seq<string>)
    ensures |ids| == |AllOverlays|
    ensures forall i :: 0 <= i < |ids| ==> ids[i] == AllOverlays[i].id
  {
    seq(|AllOverlays|, i requires 0 <= i < |AllOverlays| => AllOverlays[i].id)
  }

  /** No two entries of `OVERLAYS` share an id. */
  lemma OverlayIdsDistinct()
    ensures forall i, j :: 0 <= i < j < |AllOverlays| ==> AllOverlays[i].id != AllOverlays[j].id
  {
  }

  /** Looking up any listed id finds its overlay: the id list and the lookup agree. */
  lemma EveryIdResolves()
    ensures forall i :: 0 <= i < |GetOverlayIds()| ==> GetOverlay(GetOverlayIds()[i]) == Some(AllOverlays[i])
  {
    OverlayIdsDistinct();
    forall i | 0 <= i < |GetOverlayIds()|
      ensures GetOverlay(GetOverlayIds()[i]) == Some(AllOverlays[i])
    {
      FindOverlayFirst(AllOverlays, AllOverlays[i].id, i);
    }
  }
}
