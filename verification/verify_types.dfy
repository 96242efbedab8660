/** Outcome of one verification check. */
module VerifyTypes {
  import opened Wrappers

  /** Status of a check; `Value` is the string each member serialises to. */
  datatype CheckStatus = Pass | Fail | Info | Skip {
    function Value(): string {
      match this
      case Pass => "pass"
      case Fail => "fail"
      case Info => "info"
      case Skip => "skip"
    }
  }

  /** `CheckStatus(value)`: the member with that serialised value, if any. */
  function StatusFromValue(v: string): (r: Option<CheckStatus>)
    ensures r.Some? ==> r.value.Value() == v
  {
    if v == "pass" then Some(Pass)
    else if v == "fail" then Some(Fail)
    else if v == "info" then Some(Info)
    else if v == "skip" then Some(Skip)
    else None
  }

  /**
   * There are four statuses, each is found again from its value, and so the
   * four values are distinct.
   */
  lemma StatusValueRoundTrip(s: CheckStatus, t: CheckStatus)
    ensures s in {Pass, Fail, Info, Skip}
    ensures StatusFromValue(s.Value()) == Some(s)
    ensures s.Value() == t.Value() ==> s == t
  {
  }

  /** One result: the message defaults to `""` and the remediation to none. */
  datatype CheckResult = CheckResult(
    name: string,
    status: CheckStatus,
    message: string := "",
    remediation: Option<string> := None)

  lemma CheckResultDefaults(name: string, status: CheckStatus)
    ensures CheckResult(name, status).message == ""
    ensures CheckResult(name, status).remediation == None
  {
  }
}
