/** Reading `Key=value` settings back out of the line-oriented files the deploys write. */
module UnitFiles {
  import opened Wrappers
  import opened Text

  /** The value of the first line of `lines` that sets `key`, if any. */
  function Setting(lines: seq<string>, key: string): (r: Option<string>)
    ensures r.None? <==> forall k :: 0 <= k < |lines| ==> !StartsWith(lines[k], key + "=")
    ensures r.Some? ==> exists k :: 0 <= k < |lines| && lines[k] == key + "=" + r.value
  {
    if lines == [] then None
    else if StartsWith(lines[0], key + "=") then
      assert lines[0] == key + "=" + lines[0][|key| + 1..];
      Some(lines[0][|key| + 1..])
    else
      var r := Setting(lines[1..], key);
      assert forall k :: 0 < k < |lines| ==> lines[k] == lines[1..][k - 1];
      r
  }

  /** A line that sets `key`, preceded only by lines that do not, gives the value. */
  lemma {:induction false} SettingAt(lines: seq<string>, key: string, k: nat, value: string)
    requires k < |lines| && lines[k] == key + "=" + value
    requires forall j :: 0 <= j < k ==> !StartsWith(lines[j], key + "=")
    ensures Setting(lines, key) == Some(value)
  {
    if k == 0 {
      assert StartsWith(lines[0], key + "=");
      assert lines[0][|key| + 1..] == value;
    } else {
      assert !StartsWith(lines[0], key + "=");
      SettingAt(lines[1..], key, k - 1, value);
    }
  }
}
