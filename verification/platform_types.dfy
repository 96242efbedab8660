/** The platform descriptor: hardware family, chip, operating system and versions. */
module PlatformTypes {
  import opened Wrappers
  import opened Text

  /** SBC hardware family. */
  datatype SbcFamily = Rockchip | RaspberryPi | Allwinner | Unknown {
    /** The Python enum member's `.name`. */
    function Name(): string {
      match this
      case Rockchip => "ROCKCHIP"
      case RaspberryPi => "RASPBERRY_PI"
      case Allwinner => "ALLWINNER"
      case Unknown => "UNKNOWN"
    }
  }

  /** Specific system-on-chip. */
  datatype SbcModel = RK3588 | RK3588S | RK3566 | RK3576 | RPI4 | RPI5 | H616 | H618 | Unknown {
    function Name(): string {
      match this
      case RK3588 => "RK3588"
      case RK3588S => "RK3588S"
      case RK3566 => "RK3566"
      case RK3576 => "RK3576"
      case RPI4 => "RPI4"
      case RPI5 => "RPI5"
      case H616 => "H616"
      case H618 => "H618"
      case Unknown => "UNKNOWN"
    }
  }

  /** Operating system distribution. */
  datatype OsType = Armbian | Debian | Ubuntu | DietPi | Vendor | Unknown {
    function Name(): string {
      match this
      case Armbian => "ARMBIAN"
      case Debian => "DEBIAN"
      case Ubuntu => "UBUNTU"
      case DietPi => "DIETPI"
      case Vendor => "VENDOR"
      case Unknown => "UNKNOWN"
    }
  }

  /** `SBCFamily[name]`: the member with that `.name`, if any. */
  function FamilyFromName(s: string): (r: Option<SbcFamily>)
    ensures r.Some? ==> r.value.Name() == s
  {
    if s == "ROCKCHIP" then Some(SbcFamily.Rockchip)
    else if s == "RASPBERRY_PI" then Some(SbcFamily.RaspberryPi)
    else if s == "ALLWINNER" then Some(SbcFamily.Allwinner)
    else if s == "UNKNOWN" then Some(SbcFamily.Unknown)
    else None
  }

  /** `SBCModel[name]`. */
  function ModelFromName(s: string): (r: Option<SbcModel>)
    ensures r.Some? ==> r.value.Name() == s
  {
    if s == "RK3588" then Some(RK3588)
    else if s == "RK3588S" then Some(RK3588S)
    else if s == "RK3566" then Some(RK3566)
    else if s == "RK3576" then Some(RK3576)
    else if s == "RPI4" then Some(RPI4)
    else if s == "RPI5" then Some(RPI5)
    else if s == "H616" then Some(H616)
    else if s == "H618" then Some(H618)
    else if s == "UNKNOWN" then Some(SbcModel.Unknown)
    else None
  }

  /** `OSType[name]`. */
  function OsFromName(s: string): (r: Option<OsType>)
    ensures r.Some? ==> r.value.Name() == s
  {
    if s == "ARMBIAN" then Some(Armbian)
    else if s == "DEBIAN" then Some(Debian)
    else if s == "UBUNTU" then Some(Ubuntu)
    else if s == "DIETPI" then Some(DietPi)
    else if s == "VENDOR" then Some(Vendor)
    else if s == "UNKNOWN" then Some(OsType.Unknown)
    else None
  }

  /** Looking a member up by its own name finds it, so names are distinct. */
  lemma NameLookupRoundTrip(f: SbcFamily, m: SbcModel, o: OsType)
    ensures FamilyFromName(f.Name()) == Some(f)
    ensures ModelFromName(m.Name()) == Some(m)
    ensures OsFromName(o.Name()) == Some(o)
  {
  }

  /** The chips that belong to each family; `Unknown` belongs to every family. */
  predicate ModelOfFamily(m: SbcModel, f: SbcFamily) {
    match m
    case RK3588 | RK3588S | RK3566 | RK3576 => f == Rockchip
    case RPI4 | RPI5 => f == RaspberryPi
    case H616 | H618 => f == Allwinner
    case Unknown => true
  }

  /** The detected platform; the three strings default to empty. */
  datatype Platform = Platform(
    osType: OsType,
    sbcFamily: SbcFamily,
    sbcModel: SbcModel,
    osVersion: string := "",
    kernelVersion: string := "",
    board: string := "")
  {
    predicate IsRockchip() {
      sbcFamily == Rockchip
    }

    predicate IsArmbian() {
      osType == Armbian
    }

    /** Only Rockchip boards running Armbian are supported. */
    predicate IsSupported() {
      IsRockchip() && IsArmbian()
    }

    /**
     * `str(platform)`: `FAMILY/MODEL on OS` with the enum names, a text that
     * determines the family, model and OS it was built from.
     */
    function ToString(): (r: string)
      ensures ParseDescription(r) == Some((sbcFamily, sbcModel, osType))
    {
      NamesHaveNoSeparators(sbcFamily, sbcModel);
      DescriptionPieces(sbcFamily.Name(), sbcModel.Name(), osType.Name());
      NameLookupRoundTrip(sbcFamily, sbcModel, osType);
      sbcFamily.Name() + "/" + sbcModel.Name() + " on " + osType.Name()
    }
  }

  /** A platform built from the three enums alone has empty version, kernel and board strings. */
  lemma PlatformDefaults(o: OsType, f: SbcFamily, m: SbcModel)
    ensures Platform(o, f, m).osVersion == ""
    ensures Platform(o, f, m).kernelVersion == ""
    ensures Platform(o, f, m).board == ""
  {
  }

  /** Support is exactly the Rockchip family together with the Armbian OS. */
  lemma SupportedIff(p: Platform)
    ensures p.IsRockchip() <==> p.sbcFamily == Rockchip
    ensures p.IsArmbian() <==> p.osType == Armbian
    ensures p.IsSupported() <==> p.sbcFamily == Rockchip && p.osType == Armbian
  {
  }

  /** Reads back the three enums from `str(platform)`. */
  function ParseDescription(s: string): Option<(SbcFamily, SbcModel, OsType)> {
    var i := IndexOf(s, '/');
    if i == |s| then None
    else
      var rest := s[i + 1..];
      var j := IndexOf(rest, ' ');
      if j + 4 > |rest| || rest[j..j + 4] != " on " then None
      else
        match (FamilyFromName(s[..i]), ModelFromName(rest[..j]), OsFromName(rest[j + 4..]))
        case (Some(f), Some(m), Some(o)) => Some((f, m, o))
        case _ => None
  }

  lemma NamesHaveNoSeparators(f: SbcFamily, m: SbcModel)
    ensures '/' !in f.Name()
    ensures ' ' !in m.Name()
  {
  }

  /** `FAMILY/MODEL on OS` splits at its first `/` and at the first space after it. */
  lemma DescriptionPieces(fam: string, mod: string, os: string)
    requires '/' !in fam && ' ' !in mod
    ensures var s := fam + "/" + mod + " on " + os;
      var i := IndexOf(s, '/');
      && i == |fam| < |s| && s[..i] == fam
      && var rest := s[i + 1..];
      && IndexOf(rest, ' ') == |mod| && |mod| + 4 <= |rest|
      && rest[..|mod|] == mod && rest[|mod|..|mod| + 4] == " on " && rest[|mod| + 4..] == os
  {
    var s := fam + "/" + mod + " on " + os;
    var tail := mod + " on " + os;
    assert s == fam + ['/'] + tail;
    IndexOfAfter(fam, '/', tail);
    assert s[..|fam|] == fam;
    assert s[|fam| + 1..] == tail;
    assert tail == mod + [' '] + ("on " + os);
    IndexOfAfter(mod, ' ', "on " + os);
    assert tail[..|mod|] == mod;
    assert tail[|mod|..|mod| + 4] == " on ";
    assert tail[|mod| + 4..] == os;
  }
}
