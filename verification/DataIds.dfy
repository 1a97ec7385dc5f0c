/** The `workspace:layer` identifier of a published dataset (models/integrity_link.py). */
module DataIds {
  import opened Wrappers

  /** `parse_data_id`: what comes before and after the first colon. */
  function ParseDataId(dataId: Option<string>): Option<(string, string)> {
    if dataId.None? || ':' !in dataId.value then None else Some(SplitOnce(dataId.value, ':'))
  }

  function SplitOnce(s: string, c: char): (r: (string, string))
    requires c in s
    ensures s == r.0 + [c] + r.1 && c !in r.0
  {
    if s[0] == c then ("", s[1..])
    else
      var rest := SplitOnce(s[1..], c);
      assert s == [s[0]] + s[1..];
      ([s[0]] + rest.0, rest.1)
  }

  function MakeDataId(workspace: string, table: string): string { workspace + ":" + table }

  /** A data id reads back when its workspace holds no colon. */
  lemma DataIdReadsBack(workspace: string, table: string)
    requires ':' !in workspace
    ensures ParseDataId(Some(MakeDataId(workspace, table))) == Some((workspace, table))
  {
    var s := MakeDataId(workspace, table);
    assert s[|workspace|] == ':';
    var r := SplitOnce(s, ':');
    assert s == r.0 + [':'] + r.1 && s[|r.0|] == ':';
    assert forall i :: 0 <= i < |workspace| ==> s[i] == workspace[i] && s[i] != ':';
    assert forall i :: 0 <= i < |r.0| ==> s[i] == r.0[i] && s[i] != ':';
    assert |r.0| == |workspace|;
    assert r.0 == s[..|workspace|] == workspace && r.1 == s[|workspace| + 1..] == table;
  }
}
