/**
 * `run_all_checks`: the dispatch from a detected platform to the checks that
 * apply to it, and the exit status the command line derives from the results.
 */
module Verify {
  import opened Wrappers
  import opened PlatformTypes
  import opened VerifyTypes
  import opened RockchipArmbian

  const UnsupportedPrefix := "Unsupported: "

  /**
   * A supported platform runs the Rockchip/Armbian checks; any other gets one
   * Skip naming the platform.
   */
  function RunAllChecks(p: Platform, shell: Probe -> string): (r: seq<CheckResult>)
    ensures p.IsSupported() ==> r == GetChecks(p, shell) && |r| == 13
    ensures !p.IsSupported() ==> r == [CheckResult("Platform", Skip, UnsupportedPrefix + p.ToString())]
    ensures r != []
  {
    if p.IsRockchip() && p.IsArmbian() then GetChecks(p, shell)
    else [CheckResult("Platform", Skip, UnsupportedPrefix + p.ToString())]
  }

  /**
   * A Skip appears iff the platform is unsupported, and then it is the only
   * result: Skip is never mixed with real checks.
   */
  lemma SkipIffUnsupported(p: Platform, shell: Probe -> string)
    ensures var r := RunAllChecks(p, shell);
      (exists i :: 0 <= i < |r| && r[i].status == Skip) <==> !p.IsSupported()
    ensures var r := RunAllChecks(p, shell);
      forall i :: 0 <= i < |r| && r[i].status == Skip ==> |r| == 1 && r[i].name == "Platform"
  {
    var r := RunAllChecks(p, shell);
    if !p.IsSupported() {
      assert r[0].status == Skip;
    }
  }

  /** The unsupported message names the platform recoverably: family, model and OS read back from it. */
  lemma UnsupportedMessageNamesPlatform(p: Platform, shell: Probe -> string)
    requires !p.IsSupported()
    ensures var m := RunAllChecks(p, shell)[0].message;
      && |m| >= |UnsupportedPrefix|
      && m[..|UnsupportedPrefix|] == UnsupportedPrefix
      && ParseDescription(m[|UnsupportedPrefix|..]) == Some((p.sbcFamily, p.sbcModel, p.osType))
  {
    var m := RunAllChecks(p, shell)[0].message;
    assert m[|UnsupportedPrefix|..] == p.ToString();
  }

  // ---------------------------------------------------------------- exit status

  /** The number of failed results; the command exits with it. */
  function FailCount(rs: seq<CheckResult>): (n: nat)
    ensures n <= |rs|
  {
    if rs == [] then 0
    else (if rs[0].status == Fail then 1 else 0) + FailCount(rs[1..])
  }

  /** The exit status is zero iff no check failed. */
  lemma {:induction false} ExitZeroIffNoFailure(rs: seq<CheckResult>)
    ensures FailCount(rs) == 0 <==> forall i :: 0 <= i < |rs| ==> rs[i].status != Fail
  {
    if rs != [] {
      ExitZeroIffNoFailure(rs[1..]);
      if rs[0].status != Fail {
        forall i | 0 <= i < |rs| ensures (FailCount(rs) == 0 ==> rs[i].status != Fail) {
          if i > 0 {
            assert rs[i] == rs[1..][i - 1];
          }
        }
      }
    }
  }

  /** Every result counts once: the failures and the rest make up the whole list. */
  lemma {:induction false} FailCountSplit(a: seq<CheckResult>, b: seq<CheckResult>)
    ensures FailCount(a + b) == FailCount(a) + FailCount(b)
  {
    if a == [] {
      assert a + b == b;
    } else {
      assert (a + b)[1..] == a[1..] + b;
      FailCountSplit(a[1..], b);
    }
  }

  /** An unsupported platform never makes the command fail. */
  lemma UnsupportedExitsZero(p: Platform, shell: Probe -> string)
    requires !p.IsSupported()
    ensures FailCount(RunAllChecks(p, shell)) == 0
  {
    var r := RunAllChecks(p, shell);
    assert r[1..] == [];
  }
}
