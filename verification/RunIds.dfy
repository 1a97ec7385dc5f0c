/**
 Airflow run ids of a dataset (run_ids.py): how they are built, read back, and matched.
 */
module RunIds {
  import opened Wrappers
  import opened Text
  import opened Like

  const MANUAL_RUN_SUFFIX := "_manual"
  const LINK_ID_LENGTH: nat := 36

  /** The characters of a UUID as `str()` writes it. */
  predicate IsIdChar(c: char) { IsDigit(c) || 'a' <= c <= 'f' || c == '-' }

  predicate IsLinkId(s: string) {
    |s| == LINK_ID_LENGTH && forall i :: 0 <= i < |s| ==> IsIdChar(s[i])
  }

  /** The four shapes of run id. The last one is built by the ingestion DAG itself. */
  datatype Run =
    | InitialStaging(linkId: string)
    | StagingRerun(linkId: string, timestamp: nat)
    | ManualProcess(linkId: string, timestamp: nat)
    | ScheduledProcess(linkId: string, tsNodash: string)

  /** `ts_nodash` is a date and a time: it starts with a digit and holds no underscore. */
  predicate IsTsNodash(s: string) { s != "" && IsDigit(s[0]) && '_' !in s }

  predicate ValidRun(run: Run) {
    IsLinkId(run.linkId) && (run.ScheduledProcess? ==> IsTsNodash(run.tsNodash))
  }

  function RunId(run: Run): string {
    match run
    case InitialStaging(id) => id
    case StagingRerun(id, ts) => id + "_" + Decimal(ts)
    case ManualProcess(id, ts) => id + "_" + Decimal(ts) + MANUAL_RUN_SUFFIX
    case ScheduledProcess(id, ts) => id + "_" + ts
  }

  predicate IsManualProcessRun(runId: string) { EndsWith(runId, MANUAL_RUN_SUFFIX) }

  function ExtractLinkId(runId: string): string { Split(runId, '_')[0] }

  function StagingRunPrefix(linkId: string): string { linkId }

  function ProcessRunPrefix(linkId: string): string { linkId + "_" }

  function StagingRunLike(linkId: string): string { linkId + "%" }

  function ProcessRunLike(linkId: string): string { linkId + "_%" }

  lemma NoUnderscore(linkId: string)
    requires IsLinkId(linkId)
    ensures '_' !in linkId
    ensures forall i :: 0 <= i < |linkId| ==> !IsSpecial(linkId[i])
  {
  }

  /** What follows the dataset id in a run id. */
  function Suffix(run: Run): string {
    match run
    case InitialStaging(_) => ""
    case StagingRerun(_, ts) => "_" + Decimal(ts)
    case ManualProcess(_, ts) => "_" + (Decimal(ts) + MANUAL_RUN_SUFFIX)
    case ScheduledProcess(_, ts) => "_" + ts
  }

  lemma RunIdParts(run: Run)
    ensures RunId(run) == run.linkId + Suffix(run)
    ensures run.InitialStaging? || (Suffix(run) != "" && Suffix(run)[0] == '_')
  {
  }

  /** The dataset id is read back from every shape of run id. */
  lemma ExtractInvertsEveryShape(run: Run)
    requires ValidRun(run)
    ensures ExtractLinkId(RunId(run)) == run.linkId
  {
    RunIdParts(run);
    NoUnderscore(run.linkId);
    if run.InitialStaging? {
      SplitWithout(run.linkId, '_');
    } else {
      var rest := Suffix(run)[1..];
      assert RunId(run) == run.linkId + (['_'] + rest);
      SplitAt(run.linkId, rest, '_');
    }
  }

  /** Only the runs a user started are taken for manual. */
  lemma ManualShapeExactly(run: Run)
    requires ValidRun(run)
    ensures IsManualProcessRun(RunId(run)) <==> run.ManualProcess?
  {
    NoUnderscore(run.linkId);
    var id := RunId(run);
    if |id| >= |MANUAL_RUN_SUFFIX| {
      var end := id[|id| - |MANUAL_RUN_SUFFIX|..];
      assert id[|id| - 7] == end[0] && id[|id| - 1] == end[6];
    }
    match run {
      case InitialStaging(linkId) =>
      case StagingRerun(linkId, ts) =>
        assert id[|id| - 1] == Decimal(ts)[|Decimal(ts)| - 1];
      case ManualProcess(linkId, ts) =>
      case ScheduledProcess(linkId, ts) =>
        ScheduledEndsOtherwise(linkId, ts);
    }
  }

  lemma ScheduledEndsOtherwise(linkId: string, ts: string)
    requires IsLinkId(linkId) && IsTsNodash(ts)
    ensures !EndsWith(linkId + "_" + ts, MANUAL_RUN_SUFFIX)
  {
    var id := linkId + "_" + ts;
    var k := |id| - |MANUAL_RUN_SUFFIX|;
    var end := id[k..];
    assert id[k] == end[0] && id[k + 1] == end[1];
    assert forall i :: 0 <= i < |ts| ==> ts[i] == id[|linkId| + 1 + i] && ts[i] != '_';
    assert forall i :: 0 <= i < |linkId| ==> id[i] == linkId[i] && id[i] != '_';
  }

  // ---- Patterns ----

  /** Case folding leaves the ids of datasets as they are. */
  ghost predicate KeepsIds(fold: char -> char) { forall c: char :: IsIdChar(c) ==> fold(c) == c }

  lemma FoldedId(fold: char -> char, linkId: string)
    requires KeepsIds(fold) && IsLinkId(linkId)
    ensures MapChars(fold, linkId) == linkId
  {
  }

  lemma FoldedRunId(fold: char -> char, run: Run)
    requires KeepsIds(fold) && ValidRun(run)
    ensures MapChars(fold, RunId(run)) == run.linkId + MapChars(fold, Suffix(run))
  {
    RunIdParts(run);
    FoldedId(fold, run.linkId);
  }

  /** Lower-casing ASCII letters is such a folding, and there are such ids: what is assumed of both can be had. */
  lemma AsciiFoldingIsOne()
    ensures ValidFold(LowerChar) && KeepsIds(LowerChar)
    ensures IsLinkId("0123abcd-4567-89ef-0123-456789abcdef") && IsTsNodash("20240131T235959")
  {
  }

  /** What follows the id in a pattern, once parsed. */
  lemma LikePrefix(linkId: string, text: string, rest: string)
    requires IsLinkId(linkId) && Parse(rest).Some?
    ensures IsLike(text, linkId + rest) <==> linkId <= text && Matches(text[|linkId|..], Parse(rest).value)
  {
    ParsePlain(linkId, rest);
    MatchLiterals(text, linkId, Parse(rest).value);
  }

  lemma TailTokens()
    ensures Parse("%") == Some([AnyString])
    ensures Parse("_%") == Some([AnyChar, AnyString])
  {
    assert "%"[1..] == "" && [AnyString] + [] == [AnyString];
    assert Parse("%") == Some([AnyString]);
    assert "_%"[1..] == "%";
    assert Parse("_%") == Some([AnyChar] + [AnyString]);
    assert [AnyChar] + [AnyString] == [AnyChar, AnyString];
  }

  lemma FoldedPattern(fold: char -> char, linkId: string, rest: string)
    requires ValidFold(fold) && KeepsIds(fold) && IsLinkId(linkId)
    requires forall i :: 0 <= i < |rest| ==> IsSpecial(rest[i])
    ensures MapChars(fold, linkId + rest) == linkId + rest
  {
    FoldedId(fold, linkId);
  }

  /** The staging pattern of a dataset matches the run ids of that dataset, and no other. */
  lemma StagingLikeExactly(fold: char -> char, linkId: string, run: Run)
    requires ValidFold(fold) && KeepsIds(fold) && IsLinkId(linkId) && ValidRun(run)
    ensures IsILike(fold, RunId(run), StagingRunLike(linkId)) <==> run.linkId == linkId
  {
    var text := MapChars(fold, RunId(run));
    FoldedPattern(fold, linkId, "%");
    FoldedRunId(fold, run);
    TailTokens();
    LikePrefix(linkId, text, "%");
    assert text[..LINK_ID_LENGTH] == run.linkId;
    if linkId <= text {
      MatchAnyTail(text[|linkId|..]);
    }
  }

  /**
   The process pattern of a dataset matches its process runs and its staging reruns, and nothing of
   any other dataset, although the underscore it holds is a wildcard.
   */
  lemma ProcessLikeExactly(fold: char -> char, linkId: string, run: Run)
    requires ValidFold(fold) && KeepsIds(fold) && IsLinkId(linkId) && ValidRun(run)
    ensures IsILike(fold, RunId(run), ProcessRunLike(linkId)) <==> run.linkId == linkId && !run.InitialStaging?
  {
    var text := MapChars(fold, RunId(run));
    FoldedPattern(fold, linkId, "_%");
    FoldedRunId(fold, run);
    RunIdParts(run);
    TailTokens();
    LikePrefix(linkId, text, "_%");
    assert text[..LINK_ID_LENGTH] == run.linkId;
    if linkId <= text && |text| > |linkId| {
      MatchAnyTail(text[|linkId|..][1..]);
      assert [AnyChar, AnyString][1..] == [AnyString];
    }
  }

  /** The prefixes checked again on the client select exactly what the patterns do. */
  lemma PrefixesExactly(linkId: string, run: Run)
    requires IsLinkId(linkId) && ValidRun(run)
    ensures StartsWith(RunId(run), StagingRunPrefix(linkId)) <==> run.linkId == linkId
    ensures StartsWith(RunId(run), ProcessRunPrefix(linkId)) <==> run.linkId == linkId && !run.InitialStaging?
  {
    RunIdParts(run);
    assert RunId(run)[..LINK_ID_LENGTH] == run.linkId;
    assert ProcessRunPrefix(linkId)[..LINK_ID_LENGTH] == linkId;
    if run.linkId == linkId && !run.InitialStaging? {
      assert RunId(run)[..LINK_ID_LENGTH + 1] == linkId + "_";
    }
  }
}
