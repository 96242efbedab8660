/**
 * The check runner. The probe command's standard output is a parameter: the
 * runner's work starts once the output has been captured.
 */
module CheckRunner {
  import opened Wrappers
  import opened Text
  import opened VerifyTypes

  /** The placeholder a message template uses for the probe's output. */
  const Placeholder := "{result}"

  /**
   * `template.replace("{result}", output) if template else ""`: an empty
   * template gives no message, and a template not mentioning `{result}` is the
   * message as it stands.
   */
  function RenderMessage(template: string, output: string): (r: string)
    ensures template == "" ==> r == ""
    ensures !Contains(template, Placeholder) ==> r == template
  {
    if template == "" then ""
    else if Contains(template, Placeholder) then ReplaceAll(template, Placeholder, output)
    else
      ReplaceAllAbsent(template, Placeholder, output);
      ReplaceAll(template, Placeholder, output)
  }

  /**
   * `run_check`: without a predicate the result is Info carrying the stripped
   * output; with one it is Pass or Fail as the predicate says of the stripped
   * output, the matching template is rendered, and the remediation is
   * attached to a failure only.
   */
  function RunCheck(
    name: string,
    stdout: string,
    check: Option<string -> bool>,
    passMsg: string := "",
    failMsg: string := "",
    remediation: Option<string> := None): (r: CheckResult)
    ensures r.name == name
    ensures r.status != Skip
    ensures check.None? ==> r.status == Info && r.message == Strip(stdout) && r.remediation == None
    ensures check.Some? ==> (r.status == Pass <==> check.value(Strip(stdout)))
    ensures check.Some? ==> (r.status == Fail <==> !check.value(Strip(stdout)))
    ensures r.status == Pass ==> r.message == RenderMessage(passMsg, Strip(stdout))
    ensures r.status == Fail ==> r.message == RenderMessage(failMsg, Strip(stdout))
    ensures r.status == Fail ==> r.remediation == remediation
    ensures r.status != Fail ==> r.remediation == None
  {
    var output := Strip(stdout);
    match check
    case None => CheckResult(name, Info, output)
    case Some(checkFn) =>
      var passed := checkFn(output);
      var msg := if passed then RenderMessage(passMsg, output) else RenderMessage(failMsg, output);
      CheckResult(name, if passed then Pass else Fail, msg, if !passed then remediation else None)
  }

  /** The emptiness guard is redundant: replacing in an empty template gives an empty message. */
  lemma RenderMessageIsReplace(template: string, output: string)
    ensures RenderMessage(template, output) == ReplaceAll(template, Placeholder, output)
  {
  }

  /** Text without `{` cannot contain the placeholder, even with a partial placeholder after it. */
  lemma NoBraceNoPlaceholder(a: string)
    requires '{' !in a
    ensures !Contains(a + Placeholder[..|Placeholder| - 1], Placeholder)
    ensures !Contains(a, Placeholder)
  {
    var u := a + Placeholder[..|Placeholder| - 1];
    forall i | 0 <= i ensures !OccursAt(u, Placeholder, i) && !OccursAt(a, Placeholder, i) {
      if i < |a| {
        assert u[i] == a[i] != '{';
      }
    }
  }

  /**
   * A template `prefix{result}suffix` whose prefix and suffix have no `{`
   * renders as prefix, output, suffix.
   */
  lemma RenderAroundPlaceholder(prefix: string, output: string, suffix: string)
    requires '{' !in prefix && '{' !in suffix
    ensures RenderMessage(prefix + Placeholder + suffix, output) == prefix + output + suffix
  {
    NoBraceNoPlaceholder(prefix);
    NoBraceNoPlaceholder(suffix);
    ReplaceAllAround(prefix, Placeholder, output, suffix);
    ReplaceAllAbsent(suffix, Placeholder, output);
  }

  /** A template `{result}suffix` renders as the output followed by the suffix. */
  lemma RenderAfterPlaceholder(output: string, suffix: string)
    requires '{' !in suffix
    ensures RenderMessage(Placeholder + suffix, output) == output + suffix
  {
    RenderAroundPlaceholder("", output, suffix);
    assert "" + Placeholder + suffix == Placeholder + suffix;
    assert "" + output + suffix == output + suffix;
  }
}
