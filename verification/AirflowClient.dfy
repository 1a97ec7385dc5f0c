/**
 The loop that drains the runs of a DAG by querying again until nothing matches
 (airflow_client.py), and the cancellations built on it.

 While it runs, runs may end or disappear by themselves; no new run appears.
 */
module AirflowClient {
  import opened Wrappers
  import opened Sequences
  import opened Text
  import opened Like
  import opened RunIds

  const PAGE_SIZE: nat := 100

  datatype RunState = Queued | Running | Success | Failed

  datatype DagRun = DagRun(id: string, state: RunState)

  predicate Active(state: RunState) { state == Queued || state == Running }

  datatype Action = ForceFail(prefix: Option<string>, spareManual: bool) | Delete

  /**
   One call of `_for_each_dag_run`: the filters of the query, the action, and the ids of the runs
   on which the server refuses to act.
   */
  datatype Job = Job(fold: char -> char, like: Option<string>, activeOnly: bool, action: Action, broken: set<string>)
  {
    /** The run matches the filters of the query. */
    predicate Selects(run: DagRun) {
      && (like.Some? ==> IsILike(fold, run.id, like.value))
      && (activeOnly ==> Active(run.state))
    }

    /** The action makes progress on the run. */
    predicate Acts(run: DagRun) {
      match action
      case ForceFail(prefix, spareManual) =>
        && (prefix.Some? && prefix.value != "" ==> StartsWith(run.id, prefix.value))
        && !(spareManual && IsManualProcessRun(run.id))
      case Delete => run.id !in broken
    }

    /** The action sends a request about the run. */
    predicate Asks(run: DagRun) { action.Delete? || Acts(run) }

    /** The run is to be acted upon. */
    predicate Targets(run: DagRun) { Selects(run) && Acts(run) }

    /** The run stays in the result of the query: the action refuses it. */
    predicate Refuses(run: DagRun) { Selects(run) && !Acts(run) }

    /** The action takes the run out of the result of the query. */
    predicate Consumes() { action.Delete? || activeOnly }

    function Acted(run: DagRun): seq<DagRun> {
      if action.Delete? then [] else [run.(state := Failed)]
    }
  }

  predicate DistinctIds(runs: seq<DagRun>) {
    forall i, j | 0 <= i < j < |runs| :: runs[i].id != runs[j].id
  }

  /** The answer to a query: the first `n` runs that match, in the order of the server. */
  function Page(job: Job, runs: seq<DagRun>, n: nat): seq<DagRun> {
    if n == 0 || runs == [] then []
    else if job.Selects(runs[0]) then [runs[0]] + Page(job, runs[1..], n - 1)
    else Page(job, runs[1..], n)
  }

  // ---- What the loop leaves behind when nobody else touches the runs ----

  /** `k` refused runs lie before `runs`. */
  function Drained(job: Job, runs: seq<DagRun>, k: nat): seq<DagRun> {
    if runs == [] then []
    else if job.Targets(runs[0]) && k < PAGE_SIZE then job.Acted(runs[0]) + Drained(job, runs[1..], k)
    else [runs[0]] + Drained(job, runs[1..], if job.Refuses(runs[0]) then k + 1 else k)
  }

  function RefusedCount(job: Job, runs: seq<DagRun>): nat {
    if runs == [] then 0
    else
      RefusedCount(job, runs[..|runs| - 1]) + (if job.Refuses(runs[|runs| - 1]) then 1 else 0)
  }

  lemma {:induction false} RefusedCountFrom(job: Job, runs: seq<DagRun>, i: nat)
    requires i < |runs|
    ensures RefusedCount(job, runs[..i + 1])
      == (if job.Refuses(runs[0]) then 1 else 0) + RefusedCount(job, runs[1..][..i])
  {
    if i == 0 {
      assert runs[..1][..0] == [] && runs[1..][..0] == [];
    } else {
      RefusedCountFrom(job, runs, i - 1);
      assert runs[..i + 1][..i] == runs[..i];
      assert runs[1..][..i][..i - 1] == runs[1..][..i - 1];
    }
  }

  /** A run the loop should have acted upon, but which a full page of refused runs hides from it. */
  predicate HiddenAt(job: Job, runs: seq<DagRun>, k: nat, i: nat)
    requires i < |runs|
  {
    job.Targets(runs[i]) && k + RefusedCount(job, runs[..i]) >= PAGE_SIZE
  }

  predicate HasTarget(job: Job, runs: seq<DagRun>) {
    exists i | 0 <= i < |runs| :: job.Targets(runs[i])
  }

  lemma HasTargetInEither(job: Job, a: seq<DagRun>, b: seq<DagRun>)
    ensures HasTarget(job, a + b) <==> HasTarget(job, a) || HasTarget(job, b)
  {
    if i :| 0 <= i < |a| && job.Targets(a[i]) {
      assert job.Targets((a + b)[i]);
    }
    if i :| 0 <= i < |b| && job.Targets(b[i]) {
      assert job.Targets((a + b)[|a| + i]);
    }
  }

  /** The same, found on the way through the runs. */
  predicate SomeHidden(job: Job, runs: seq<DagRun>, k: nat) {
    runs != [] && (
      (job.Targets(runs[0]) && k >= PAGE_SIZE)
      || SomeHidden(job, runs[1..], if job.Refuses(runs[0]) then k + 1 else k))
  }

  lemma {:induction false} SurvivorsAreHidden(job: Job, runs: seq<DagRun>, k: nat)
    requires job.Consumes()
    ensures HasTarget(job, Drained(job, runs, k)) <==> SomeHidden(job, runs, k)
  {
    if runs != [] {
      var next := if job.Refuses(runs[0]) then k + 1 else k;
      SurvivorsAreHidden(job, runs[1..], next);
      var head := if job.Targets(runs[0]) && k < PAGE_SIZE then job.Acted(runs[0]) else [runs[0]];
      HasTargetInEither(job, head, Drained(job, runs[1..], next));
      assert HasTarget(job, head) <==> job.Targets(runs[0]) && k >= PAGE_SIZE by {
        if job.Targets(runs[0]) && k >= PAGE_SIZE { assert job.Targets(head[0]); }
      }
    }
  }

  lemma {:induction false} HiddenExactly(job: Job, runs: seq<DagRun>, k: nat)
    ensures SomeHidden(job, runs, k) <==> exists i | 0 <= i < |runs| :: HiddenAt(job, runs, k, i)
  {
    if runs != [] {
      var rest, next := runs[1..], if job.Refuses(runs[0]) then k + 1 else k;
      HiddenExactly(job, rest, next);
      assert runs[..0] == [] && RefusedCount(job, []) == 0;
      forall i | 0 <= i < |rest| ensures HiddenAt(job, rest, next, i) <==> HiddenAt(job, runs, k, i + 1) {
        RefusedCountFrom(job, runs, i);
        assert rest[i] == runs[i + 1];
      }
      if i :| 0 <= i < |runs| && HiddenAt(job, runs, k, i) {
        assert i > 0 ==> HiddenAt(job, rest, next, i - 1);
      }
      if i :| 0 <= i < |rest| && HiddenAt(job, rest, next, i) {
        assert HiddenAt(job, runs, k, i + 1);
      }
      if job.Targets(runs[0]) && k >= PAGE_SIZE {
        assert HiddenAt(job, runs, k, 0);
      }
    }
  }

  /**
   The loop is complete exactly when no run to act upon comes after 100 matching runs that the
   action refuses: those fill the page, and the loop stops on it.
   */
  lemma {:induction false} DrainIsCompleteExactly(job: Job, runs: seq<DagRun>)
    requires job.Consumes()
    ensures !HasTarget(job, Drained(job, runs, 0))
       <==> forall i | 0 <= i < |runs| && job.Targets(runs[i]) :: RefusedCount(job, runs[..i]) < 100
  {
    SurvivorsAreHidden(job, runs, 0);
    HiddenExactly(job, runs, 0);
    assert forall i | 0 <= i < |runs| ::
      HiddenAt(job, runs, 0, i) <==> job.Targets(runs[i]) && RefusedCount(job, runs[..i]) >= PAGE_SIZE;
  }

  // ---- One page, as a function ----

  /** The runs once the action was applied to the first `n` matching ones. */
  function ActedOn(job: Job, runs: seq<DagRun>, n: nat): seq<DagRun> {
    if n == 0 || runs == [] then runs
    else if job.Selects(runs[0]) then
      (if job.Acts(runs[0]) then job.Acted(runs[0]) else [runs[0]]) + ActedOn(job, runs[1..], n - 1)
    else [runs[0]] + ActedOn(job, runs[1..], n)
  }

  /** Acting on a run, found by its id. */
  function ActById(job: Job, runs: seq<DagRun>, id: string): seq<DagRun> {
    if runs == [] then []
    else if runs[0].id == id then job.Acted(runs[0]) + runs[1..]
    else [runs[0]] + ActById(job, runs[1..], id)
  }

  lemma {:induction false} PageMembers(job: Job, runs: seq<DagRun>, n: nat)
    ensures |Page(job, runs, n)| <= n
    ensures forall run :: run in Page(job, runs, n) ==> run in runs && job.Selects(run)
    ensures |Page(job, runs, n)| < n ==> forall run :: run in runs && job.Selects(run) ==> run in Page(job, runs, n)
  {
    if n > 0 && runs != [] {
      PageMembers(job, runs[1..], if job.Selects(runs[0]) then n - 1 else n);
      assert runs == [runs[0]] + runs[1..];
    }
  }

  lemma {:induction false} PageIsDistinct(job: Job, runs: seq<DagRun>, n: nat)
    requires DistinctIds(runs)
    ensures DistinctIds(Page(job, runs, n))
  {
    if n > 0 && runs != [] {
      PageIsDistinct(job, runs[1..], if job.Selects(runs[0]) then n - 1 else n);
      PageMembers(job, runs[1..], n - 1);
      if job.Selects(runs[0]) {
        var page := Page(job, runs[1..], n - 1);
        forall j | 0 <= j < |page| ensures page[j].id != runs[0].id {
          assert page[j] in runs[1..];
          var k :| 0 <= k < |runs[1..]| && runs[1..][k] == page[j];
          assert runs[k + 1] == page[j];
        }
      }
    }
  }

  /** Acting on the next run of the page by its id is the next step of the page. */
  lemma {:induction false} NextOfPage(job: Job, runs: seq<DagRun>, i: nat, n: nat)
    requires DistinctIds(runs) && i < |Page(job, runs, n)|
    ensures var run := Page(job, runs, n)[i];
      ActedOn(job, runs, i + 1)
      == if job.Acts(run) then ActById(job, ActedOn(job, runs, i), run.id) else ActedOn(job, runs, i)
  {
    hide DistinctIds, ActById, Page, ActedOn;
    RestOfPage(job, runs, i, n);
    var rest, head := runs[1..], runs[0];
    if job.Selects(head) && i == 0 {
      FirstOfPage(job, runs, n);
    } else {
      var j, m := if job.Selects(head) then i - 1 else i, if job.Selects(head) then n - 1 else n;
      RestStaysDistinct(runs);
      NextOfPage(job, rest, j, m);
      NotTheHead(job, runs, j, m);
      var kept := if job.Selects(head) && job.Acts(head) then job.Acted(head) else [head];
      HeadOfActedOn(job, runs, i, kept);
      HeadOfActedOn(job, runs, i + 1, kept);
      ActPastHead(job, kept, ActedOn(job, rest, j), Page(job, rest, m)[j].id);
    }
  }

  /** A page past its first run is a page of the rest. */
  lemma RestOfPage(job: Job, runs: seq<DagRun>, i: nat, n: nat)
    requires i < |Page(job, runs, n)|
    ensures runs != [] && n > 0
    ensures
      var selected := job.Selects(runs[0]);
      var j, m := if selected then i - 1 else i, if selected then n - 1 else n;
      (selected && i == 0) || (j < |Page(job, runs[1..], m)| && Page(job, runs, n)[i] == Page(job, runs[1..], m)[j])
  {
  }

  lemma RestStaysDistinct(runs: seq<DagRun>)
    requires DistinctIds(runs) && runs != []
    ensures DistinctIds(runs[1..])
  {
    assert forall i | 0 <= i < |runs| - 1 :: runs[1..][i] == runs[i + 1];
  }

  /** What becomes of the first run, and the rest. */
  lemma HeadOfActedOn(job: Job, runs: seq<DagRun>, n: nat, kept: seq<DagRun>)
    requires runs != [] && (job.Selects(runs[0]) ==> n > 0)
    requires kept == if job.Selects(runs[0]) && job.Acts(runs[0]) then job.Acted(runs[0]) else [runs[0]]
    ensures ActedOn(job, runs, n) == kept + ActedOn(job, runs[1..], if job.Selects(runs[0]) then n - 1 else n)
  {
    HeadAndTail(runs);
  }

  lemma NotTheHead(job: Job, runs: seq<DagRun>, i: nat, n: nat)
    requires DistinctIds(runs) && runs != [] && i < |Page(job, runs[1..], n)|
    ensures Page(job, runs[1..], n)[i].id != runs[0].id
  {
    var run := Page(job, runs[1..], n)[i];
    PageMembers(job, runs[1..], n);
    assert run in runs[1..];
    var k :| 0 <= k < |runs[1..]| && runs[1..][k] == run;
    assert runs[k + 1] == run;
  }

  lemma FirstOfPage(job: Job, runs: seq<DagRun>, n: nat)
    requires runs != [] && job.Selects(runs[0]) && n > 0
    ensures Page(job, runs, n)[..1] == [runs[0]] && ActedOn(job, runs, 0) == runs
    ensures ActedOn(job, runs, 1) == if job.Acts(runs[0]) then ActById(job, runs, runs[0].id) else runs
  {
    HeadAndTail(runs);
    assert ActedOn(job, runs[1..], 0) == runs[1..];
  }

  lemma ActPastHead(job: Job, head: seq<DagRun>, rest: seq<DagRun>, id: string)
    requires |head| <= 1 && (head != [] ==> head[0].id != id)
    ensures ActById(job, head + rest, id) == head + ActById(job, rest, id)
  {
    if head == [] {
      assert head + rest == rest;
    } else {
      assert (head + rest)[1..] == rest;
    }
  }

  /** Acting on a page, or on part of one, does not change what the whole loop leaves. */
  lemma {:induction false} PageKeepsOutcome(job: Job, runs: seq<DagRun>, n: nat, k: nat)
    requires job.Consumes() && k + n <= PAGE_SIZE
    ensures Drained(job, ActedOn(job, runs, n), k) == Drained(job, runs, k)
  {
    if n > 0 && runs != [] {
      var head, rest := runs[0], runs[1..];
      if job.Targets(head) {
        PageKeepsOutcome(job, rest, n - 1, k);
        DrainPastHead(job, job.Acted(head), ActedOn(job, rest, n - 1), k);
      } else if job.Selects(head) {
        PageKeepsOutcome(job, rest, n - 1, k + 1);
        assert ([head] + ActedOn(job, rest, n - 1))[1..] == ActedOn(job, rest, n - 1);
      } else {
        PageKeepsOutcome(job, rest, n, k);
        assert ([head] + ActedOn(job, rest, n))[1..] == ActedOn(job, rest, n);
      }
    }
  }

  lemma DrainPastHead(job: Job, head: seq<DagRun>, rest: seq<DagRun>, k: nat)
    requires |head| <= 1 && (head != [] ==> !job.Selects(head[0]))
    ensures Drained(job, head + rest, k) == head + Drained(job, rest, k)
  {
    if head == [] {
      assert head + rest == rest;
    } else {
      assert (head + rest)[1..] == rest;
    }
  }

  /** When the page holds nothing to act upon, there is nothing left that the loop would reach. */
  lemma {:induction false} IdlePageIsTheEnd(job: Job, runs: seq<DagRun>, n: nat, k: nat)
    requires k + n >= PAGE_SIZE
    requires forall i :: 0 <= i < |Page(job, runs, n)| ==> !job.Acts(Page(job, runs, n)[i])
    ensures Drained(job, runs, k) == runs
  {
    if runs != [] {
      var rest := runs[1..];
      if n > 0 {
        var page := Page(job, runs, n);
        assert job.Selects(runs[0]) ==> page[0] == runs[0] && page[1..] == Page(job, rest, n - 1);
        assert forall i | 0 <= i < |page| - 1 :: page[1..][i] == page[i + 1];
        IdlePageIsTheEnd(job, rest, if job.Selects(runs[0]) then n - 1 else n,
                         if job.Refuses(runs[0]) then k + 1 else k);
      } else {
        IdlePageIsTheEnd(job, rest, 0, if job.Refuses(runs[0]) then k + 1 else k);
      }
      assert runs == [runs[0]] + rest;
    }
  }

  // ---- Time passes ----

  predicate Over(state: RunState) { state == Success || state == Failed }

  /** `runs` had the run, and it was not over unless it still is. */
  predicate HasEarlier(runs: seq<DagRun>, run: DagRun) {
    exists before | before in runs :: before.id == run.id && (Over(before.state) ==> Over(run.state))
  }

  /** `later` holds no run that `runs` had not, and no run has become active again. */
  predicate Later(runs: seq<DagRun>, later: seq<DagRun>) {
    forall run {:trigger HasEarlier(runs, run)} | run in later :: HasEarlier(runs, run)
  }

  lemma Earlier(runs: seq<DagRun>, later: seq<DagRun>, run: DagRun) returns (before: DagRun)
    requires Later(runs, later) && run in later
    ensures before in runs && before.id == run.id && (Over(before.state) ==> Over(run.state))
  {
    assert HasEarlier(runs, run);
    before :| before in runs && before.id == run.id && (Over(before.state) ==> Over(run.state));
  }

  lemma LaterIsTransitive(a: seq<DagRun>, b: seq<DagRun>, c: seq<DagRun>)
    requires Later(a, b) && Later(b, c)
    ensures Later(a, c)
  {
    forall run | run in c ensures HasEarlier(a, run) {
      var middle := Earlier(b, c, run);
      var before := Earlier(a, b, middle);
    }
  }

  ghost function SelectedIds(job: Job, runs: seq<DagRun>): set<string> {
    set i | 0 <= i < |runs| && job.Selects(runs[i]) :: runs[i].id
  }

  ghost function TargetIds(job: Job, runs: seq<DagRun>): set<string> {
    set i | 0 <= i < |runs| && job.Targets(runs[i]) :: runs[i].id
  }

  ghost function AskedIds(job: Job, runs: seq<DagRun>): set<string> {
    set i | 0 <= i < |runs| && job.Selects(runs[i]) && job.Asks(runs[i]) :: runs[i].id
  }

  ghost function RefusedIds(job: Job, runs: seq<DagRun>): set<string> {
    set i | 0 <= i < |runs| && job.Refuses(runs[i]) :: runs[i].id
  }

  lemma TargetsHaveIds(job: Job, runs: seq<DagRun>)
    ensures TargetIds(job, runs) == {} <==> forall i | 0 <= i < |runs| :: !job.Targets(runs[i])
  {
    forall i | 0 <= i < |runs| && job.Targets(runs[i])
      ensures runs[i].id in TargetIds(job, runs)
    {
    }
  }

  /** As time passes, fewer runs match, whether the action takes them or not. */
  lemma LaterMatchesLess(job: Job, runs: seq<DagRun>, later: seq<DagRun>)
    requires Later(runs, later)
    ensures SelectedIds(job, later) <= SelectedIds(job, runs)
    ensures TargetIds(job, later) <= TargetIds(job, runs)
    ensures RefusedIds(job, later) <= RefusedIds(job, runs)
    ensures AskedIds(job, later) <= AskedIds(job, runs)
  {
    forall i | 0 <= i < |later| && job.Selects(later[i])
      ensures job.Asks(later[i]) ==> later[i].id in AskedIds(job, runs)
      ensures later[i].id in SelectedIds(job, runs)
      ensures job.Acts(later[i]) ==> later[i].id in TargetIds(job, runs)
      ensures !job.Acts(later[i]) ==> later[i].id in RefusedIds(job, runs)
    {
      assert later[i] in later;
      var before := Earlier(runs, later, later[i]);
      var k :| 0 <= k < |runs| && runs[k] == before;
      assert job.Selects(runs[k]) && (job.Acts(runs[k]) <==> job.Acts(later[i]));
    }
  }

  lemma {:induction false} ActByIdMembers(job: Job, runs: seq<DagRun>, id: string)
    requires DistinctIds(runs)
    ensures DistinctIds(ActById(job, runs, id))
    ensures forall run :: run in runs && run.id != id ==> run in ActById(job, runs, id)
    ensures forall run :: run in ActById(job, runs, id) ==>
      run in runs || (run.id == id && job.action.ForceFail? && run.state == Failed && HasRun(runs, id))
    ensures forall run :: run in ActById(job, runs, id) && run.id == id ==> job.action.ForceFail? && run.state == Failed
  {
    if runs != [] {
      var head, rest := runs[0], runs[1..];
      assert runs == [head] + rest;
      assert forall run | run in rest :: run.id != head.id by {
        forall run | run in rest ensures run.id != head.id {
          var k :| 0 <= k < |rest| && rest[k] == run;
          assert runs[k + 1] == run;
        }
      }
      if head.id == id {
        assert HasRun(runs, id) by { assert runs[0] in runs; }
        assert DistinctIds(rest) by { assert forall i | 0 <= i < |rest| :: rest[i] == runs[i + 1]; }
      } else {
        assert DistinctIds(rest) by { assert forall i | 0 <= i < |rest| :: rest[i] == runs[i + 1]; }
        ActByIdMembers(job, rest, id);
        var tail := ActById(job, rest, id);
        forall k | 0 <= k < |tail| ensures tail[k].id != head.id {
          assert tail[k] in tail;
        }
        assert HasRun(rest, id) ==> HasRun(runs, id);
      }
    }
  }

  lemma ActionIsLater(job: Job, runs: seq<DagRun>, id: string)
    requires DistinctIds(runs)
    ensures Later(runs, ActById(job, runs, id))
  {
    ActByIdMembers(job, runs, id);
  }

  predicate HasRun(runs: seq<DagRun>, id: string) { exists run | run in runs :: run.id == id }

  // ---- The server ----

  function RunsOf(dags: map<string, seq<DagRun>>, dagId: string): seq<DagRun> {
    if dagId in dags then dags[dagId] else []
  }

  datatype Answer = Done | NotFound | Error

  /** The run that a request is about. */
  datatype Target = Target(dagId: string, runId: string)

  class AirflowServer {
    var dags: map<string, seq<DagRun>>
    const fold: char -> char
    const broken: set<string> // runs on which every request fails
    const quiet: bool         // nobody else acts on the runs
    ghost var requests: seq<Target> // every PATCH and DELETE, in order

    constructor (dags: map<string, seq<DagRun>>, fold: char -> char, broken: set<string>, quiet: bool)
      requires forall dagId | dagId in dags :: DistinctIds(dags[dagId])
      ensures Valid()
      ensures this.dags == dags && this.fold == fold && this.broken == broken && this.quiet == quiet && requests == []
    {
      this.dags, this.fold, this.broken, this.quiet := dags, fold, broken, quiet;
      requests := [];
    }

    ghost predicate Valid()
      reads this
    {
      forall dagId | dagId in dags :: DistinctIds(dags[dagId])
    }

    /** What happens between two requests: runs and whole DAGs may end or disappear. */
    method Elapse()
      requires Valid()
      modifies this`dags
      ensures Valid()
      ensures DagsLater(old(dags), dags)
      ensures quiet ==> dags == old(dags)
    {
      if !quiet {
        var gone: string := *;
        dags := dags - {gone};
      }
    }

    /** GET the runs of a DAG; None for a DAG that does not exist. */
    method GetDagRuns(dagId: string, job: Job) returns (page: Option<seq<DagRun>>)
      ensures page == if dagId in dags then Some(Page(job, dags[dagId], PAGE_SIZE)) else None
    {
      page := if dagId in dags then Some(Page(job, dags[dagId], PAGE_SIZE)) else None;
    }

    /** PATCH a run to failed, or DELETE it. */
    method Request(dagId: string, job: Job, id: string) returns (answer: Answer)
      requires Valid()
      modifies this
      ensures Valid()
      ensures !HasRun(RunsOf(old(dags), dagId), id) ==> answer == NotFound && dags == old(dags)
      ensures HasRun(RunsOf(old(dags), dagId), id) ==>
        if id in broken then answer == Error && dags == old(dags)
        else answer == Done && dagId in old(dags) && dags == old(dags)[dagId := ActById(job, old(dags)[dagId], id)]
      ensures requests == old(requests) + [Target(dagId, id)]
    {
      requests := requests + [Target(dagId, id)];
      if !HasRun(RunsOf(dags, dagId), id) {
        return NotFound;
      }
      if id in broken {
        return Error;
      }
      ActByIdMembers(job, dags[dagId], id);
      dags := dags[dagId := ActById(job, dags[dagId], id)];
      return Done;
    }
  }

  type Dags = map<string, seq<DagRun>>

  ghost predicate DagsLater(dags: map<string, seq<DagRun>>, now: map<string, seq<DagRun>>) {
    forall dagId :: Later(RunsOf(dags, dagId), RunsOf(now, dagId))
  }

  lemma DagsLaterIsTransitive(a: map<string, seq<DagRun>>, b: map<string, seq<DagRun>>, c: map<string, seq<DagRun>>)
    requires DagsLater(a, b) && DagsLater(b, c)
    ensures DagsLater(a, c)
  {
    forall dagId {
      LaterIsTransitive(RunsOf(a, dagId), RunsOf(b, dagId), RunsOf(c, dagId));
    }
  }

  lemma ActionIsDagsLater(job: Job, dags: map<string, seq<DagRun>>, dagId: string, id: string)
    requires dagId in dags && DistinctIds(dags[dagId])
    ensures DagsLater(dags, dags[dagId := ActById(job, dags[dagId], id)])
  {
    ActionIsLater(job, dags[dagId], id);
  }

  lemma NotSelectedAnymore(job: Job, runs: seq<DagRun>, id: string)
    requires forall run | run in runs && run.id == id :: !job.Selects(run)
    ensures id !in SelectedIds(job, runs)
  {
    assert forall i | 0 <= i < |runs| :: runs[i] in runs;
  }

  lemma ActedIsNotSelected(job: Job, runs: seq<DagRun>, id: string)
    requires DistinctIds(runs) && job.Consumes()
    ensures id !in SelectedIds(job, ActById(job, runs, id))
  {
    ActByIdMembers(job, runs, id);
    NotSelectedAnymore(job, ActById(job, runs, id), id);
  }

  /** What one turn of the loop does. */
  ghost predicate Turn(job: Job, quiet: bool, dagId: string, run: DagRun, before: Dags, now: Dags, moved: bool) {
    && DagsLater(before, now)
    && (moved ==> run.id !in SelectedIds(job, RunsOf(now, dagId)))
    && (!moved ==> !job.Acts(run))
    && (quiet && dagId in before && run in before[dagId] ==>
          now == if job.Acts(run) then before[dagId := ActById(job, before[dagId], run.id)] else before)
  }

  /** Every request made since is about a run of the DAG that the query matched and the action takes. */
  ghost predicate OnlyAsked(job: Job, dagId: string, runs: seq<DagRun>, before: seq<Target>, now: seq<Target>) {
    && before <= now
    && forall i | |before| <= i < |now| :: now[i].dagId == dagId && now[i].runId in AskedIds(job, runs)
  }

  lemma OnlyAskedGoesOn(
    job: Job, dagId: string, runs: seq<DagRun>, later: seq<DagRun>, a: seq<Target>, b: seq<Target>, c: seq<Target>)
    requires Later(runs, later) && OnlyAsked(job, dagId, runs, a, b) && OnlyAsked(job, dagId, later, b, c)
    ensures OnlyAsked(job, dagId, runs, a, c)
  {
    LaterMatchesLess(job, runs, later);
  }

  /** Some run that the job is to act upon is one on which the server refuses to act. */
  ghost predicate SomeTargetIsBroken(job: Job, runs: seq<DagRun>, broken: set<string>) {
    exists id | id in TargetIds(job, runs) :: id in broken
  }

  lemma StillBroken(job: Job, runs: seq<DagRun>, later: seq<DagRun>, broken: set<string>)
    requires Later(runs, later) && SomeTargetIsBroken(job, later, broken)
    ensures SomeTargetIsBroken(job, runs, broken)
  {
    LaterMatchesLess(job, runs, later);
  }

  /** The action of the job on one run of a page: whether it made progress, or raised. */
  method ActOnRun(server: AirflowServer, dagId: string, job: Job, run: DagRun) returns (progressed: bool, raised: bool)
    requires server.Valid() && job.broken == server.broken && job.Consumes()
    requires job.Selects(run)
    modifies server
    ensures server.Valid()
    ensures raised ==> job.action.ForceFail? && job.Acts(run) && run.id in server.broken
    ensures server.requests == old(server.requests)
            || (server.requests == old(server.requests) + [Target(dagId, run.id)] && job.Asks(run))
    ensures if raised then
              DagsLater(old(server.dags), server.dags) && (server.quiet ==> server.dags == old(server.dags))
            else Turn(job, server.quiet, dagId, run, old(server.dags), server.dags, progressed)
  {
    server.Elapse();
    ghost var before := server.dags;
    if job.action.ForceFail? && !job.Acts(run) {
      return false, false;
    }
    var answer := server.Request(dagId, job, run.id);
    match answer {
      case Done =>
        ActionIsDagsLater(job, before, dagId, run.id);
        DagsLaterIsTransitive(old(server.dags), before, server.dags);
        ActedIsNotSelected(job, before[dagId], run.id);
        return true, false;
      case NotFound =>
        NotSelectedAnymore(job, RunsOf(server.dags, dagId), run.id);
        return true, false;
      case Error =>
        return false, job.action.ForceFail?;
    }
  }

  /** Runs that the job does not target are left as they are. */
  ghost predicate Spares(job: Job, runs: seq<DagRun>, now: seq<DagRun>) {
    forall run | run in runs && !job.Targets(run) :: run in now
  }

  lemma {:induction false} ActedOnSpares(job: Job, runs: seq<DagRun>, n: nat)
    ensures Spares(job, runs, ActedOn(job, runs, n))
  {
    if n > 0 && runs != [] {
      ActedOnSpares(job, runs[1..], if job.Selects(runs[0]) then n - 1 else n);
      assert runs == [runs[0]] + runs[1..];
    }
  }

  /** The state of the loop over one page, `i` of its runs done. */
  ghost predicate MidPage(
    job: Job, quiet: bool, dags: Dags, dagId: string, page: seq<DagRun>, i: nat, now: Dags, progressed: bool,
    gone: string)
    requires dagId in dags && i <= |page|
  {
    && DagsLater(dags, now)
    && (progressed ==> gone in SelectedIds(job, dags[dagId]) && gone !in SelectedIds(job, RunsOf(now, dagId)))
    && (!progressed ==> Idle(job, page, i))
    && (quiet ==> now == dags[dagId := ActedOn(job, dags[dagId], i)])
    && (quiet && !progressed ==> now == dags)
  }

  lemma MidPageStep(
    job: Job, quiet: bool, dags: Dags, dagId: string, page: seq<DagRun>, i: nat,
    before: Dags, now: Dags, progressed: bool, gone: string, moved: bool)
    requires dagId in dags && DistinctIds(dags[dagId]) && page == Page(job, dags[dagId], PAGE_SIZE) && i < |page|
    requires MidPage(job, quiet, dags, dagId, page, i, before, progressed, gone)
    requires Turn(job, quiet, dagId, page[i], before, now, moved)
    ensures MidPage(job, quiet, dags, dagId, page, i + 1, now, progressed || moved,
                    if progressed then gone else page[i].id)
  {
    DagsLaterIsTransitive(dags, before, now);
    LaterMatchesLess(job, RunsOf(before, dagId), RunsOf(now, dagId));
    PageMembers(job, dags[dagId], PAGE_SIZE);
    assert page[i] in page;
    SelectedHere(job, dags[dagId], page[i]);
    if quiet {
      QuietStep(job, dags, dagId, dags[dagId], i, before, now);
    }
  }

  lemma MidPageStart(job: Job, quiet: bool, dags: Dags, dagId: string, page: seq<DagRun>)
    requires dagId in dags
    ensures MidPage(job, quiet, dags, dagId, page, 0, dags, false, "")
  {
    assert dags[dagId := ActedOn(job, dags[dagId], 0)] == dags;
  }

  lemma MidPageRaised(
    job: Job, quiet: bool, dags: Dags, dagId: string, page: seq<DagRun>, i: nat,
    before: Dags, now: Dags, progressed: bool, gone: string)
    requires dagId in dags && i <= |page|
    requires MidPage(job, quiet, dags, dagId, page, i, before, progressed, gone)
    requires DagsLater(before, now) && (quiet ==> now == before)
    ensures MidPage(job, quiet, dags, dagId, page, i, now, progressed, gone)
  {
    DagsLaterIsTransitive(dags, before, now);
    LaterMatchesLess(job, RunsOf(before, dagId), RunsOf(now, dagId));
  }

  /** The loop over one page: `done` of its runs are done when it ends, all of them if nothing raised. */
  method ActOnPage(
    server: AirflowServer, dagId: string, job: Job, page: seq<DagRun>, ghost dags: Dags, ghost asked: seq<Target>)
    returns (progressed: bool, raised: bool, ghost done: nat, ghost gone: string)
    requires server.Valid() && job.broken == server.broken && job.Consumes()
    requires dags == server.dags && asked == server.requests
    requires dagId in dags && DistinctIds(dags[dagId]) && page == Page(job, dags[dagId], PAGE_SIZE)
    modifies server
    ensures server.Valid()
    ensures done <= |page| && (raised ==> job.action.ForceFail?) && (!raised ==> done == |page|)
    ensures MidPage(job, server.quiet, dags, dagId, page, done, server.dags, progressed, gone)
    ensures OnlyAsked(job, dagId, dags[dagId], asked, server.requests)
    ensures raised ==> SomeTargetIsBroken(job, dags[dagId], server.broken)
  {
    progressed, raised, done, gone := false, false, 0, "";
    MidPageStart(job, server.quiet, dags, dagId, page);
    for i := 0 to |page|
      invariant server.Valid() && done == i && !raised
      invariant MidPage(job, server.quiet, dags, dagId, page, i, server.dags, progressed, gone)
      invariant OnlyAsked(job, dagId, dags[dagId], asked, server.requests)
    {
      progressed, raised, gone := TakeTurn(server, dagId, job, page, i, dags, progressed, gone);
      if raised {
        return;
      }
      done := i + 1;
    }
  }

  /** One turn of that loop. */
  method TakeTurn(
    server: AirflowServer, dagId: string, job: Job, page: seq<DagRun>, i: nat, ghost dags: Dags, already: bool,
    ghost before: string)
    returns (progressed: bool, raised: bool, ghost gone: string)
    requires server.Valid() && job.broken == server.broken && job.Consumes()
    requires dagId in dags && DistinctIds(dags[dagId]) && page == Page(job, dags[dagId], PAGE_SIZE) && i < |page|
    requires MidPage(job, server.quiet, dags, dagId, page, i, server.dags, already, before)
    modifies server
    ensures server.Valid() && (raised ==> job.action.ForceFail?)
    ensures MidPage(job, server.quiet, dags, dagId, page, if raised then i else i + 1, server.dags, progressed, gone)
    ensures OnlyAsked(job, dagId, dags[dagId], old(server.requests), server.requests)
    ensures raised ==> SomeTargetIsBroken(job, dags[dagId], server.broken)
  {
    ghost var start := server.dags;
    PageSelects(job, dags[dagId], i);
    PageIds(job, dags[dagId], i);
    var moved: bool;
    moved, raised := ActOnRun(server, dagId, job, page[i]);
    if raised {
      MidPageRaised(job, server.quiet, dags, dagId, page, i, start, server.dags, already, before);
      return already, true, before;
    }
    MidPageStep(job, server.quiet, dags, dagId, page, i, start, server.dags, already, before, moved);
    progressed, gone := already || moved, if already then before else page[i].id;
  }

  lemma PageSelects(job: Job, runs: seq<DagRun>, i: nat)
    requires i < |Page(job, runs, PAGE_SIZE)|
    ensures job.Selects(Page(job, runs, PAGE_SIZE)[i])
  {
    PageMembers(job, runs, PAGE_SIZE);
    assert Page(job, runs, PAGE_SIZE)[i] in Page(job, runs, PAGE_SIZE);
  }

  /** The ids of a page are those of runs that match. */
  lemma PageIds(job: Job, runs: seq<DagRun>, i: nat)
    requires i < |Page(job, runs, PAGE_SIZE)|
    ensures
      var run := Page(job, runs, PAGE_SIZE)[i];
      && (job.Acts(run) ==> run.id in TargetIds(job, runs))
      && (job.Asks(run) ==> run.id in AskedIds(job, runs))
  {
    PageMembers(job, runs, PAGE_SIZE);
    var run := Page(job, runs, PAGE_SIZE)[i];
    assert run in Page(job, runs, PAGE_SIZE);
    var k :| 0 <= k < |runs| && runs[k] == run;
  }

  /** The action took none of the first `n` runs of the page. */
  predicate Idle(job: Job, page: seq<DagRun>, n: nat)
    requires n <= |page|
  {
    n == 0 || (!job.Acts(page[n - 1]) && Idle(job, page, n - 1))
  }

  lemma {:induction false} IdlePage(job: Job, page: seq<DagRun>, n: nat)
    requires n <= |page| && Idle(job, page, n)
    ensures forall i :: 0 <= i < n ==> !job.Acts(page[i])
  {
    if n > 0 { IdlePage(job, page, n - 1); }
  }

  lemma QuietStep(
    job: Job, dags: map<string, seq<DagRun>>, dagId: string, runs: seq<DagRun>, i: nat,
    before: map<string, seq<DagRun>>, now: map<string, seq<DagRun>>)
    requires DistinctIds(runs) && i < |Page(job, runs, PAGE_SIZE)|
    requires before == dags[dagId := ActedOn(job, runs, i)]
    requires var run := Page(job, runs, PAGE_SIZE)[i];
      run in before[dagId] ==>
        now == if job.Acts(run) then before[dagId := ActById(job, before[dagId], run.id)] else before
    ensures now == dags[dagId := ActedOn(job, runs, i + 1)]
  {
    StillThere(job, runs, i);
    NextOfPage(job, runs, i, PAGE_SIZE);
  }

  lemma SelectedHere(job: Job, runs: seq<DagRun>, run: DagRun)
    requires run in runs && job.Selects(run)
    ensures run.id in SelectedIds(job, runs)
  {
    var k :| 0 <= k < |runs| && runs[k] == run;
  }

  /** The run whose turn it is has not been touched by the turns before. */
  lemma {:induction false} StillThere(job: Job, runs: seq<DagRun>, i: nat)
    requires i < |Page(job, runs, PAGE_SIZE)|
    ensures Page(job, runs, PAGE_SIZE)[i] in ActedOn(job, runs, i)
  {
    StillThereFrom(job, runs, i, PAGE_SIZE);
  }

  lemma ActedOnStep(job: Job, runs: seq<DagRun>, n: nat, run: DagRun)
    requires runs != [] && n > 0 && run in ActedOn(job, runs[1..], if job.Selects(runs[0]) then n - 1 else n)
    ensures run in ActedOn(job, runs, n)
  {
  }

  lemma {:induction false} StillThereFrom(job: Job, runs: seq<DagRun>, i: nat, n: nat)
    requires i < |Page(job, runs, n)|
    ensures Page(job, runs, n)[i] in ActedOn(job, runs, i)
  {
    if i == 0 {
      PageMembers(job, runs, n);
      assert Page(job, runs, n)[0] in Page(job, runs, n);
    } else if job.Selects(runs[0]) {
      StillThereFrom(job, runs[1..], i - 1, n - 1);
      ActedOnStep(job, runs, i, Page(job, runs, n)[i]);
    } else {
      StillThereFrom(job, runs[1..], i, n);
      ActedOnStep(job, runs, i, Page(job, runs, n)[i]);
    }
  }

  // ---- The whole loop ----

  /** What is known of the server after any number of pages. */
  ghost predicate MidLoop(job: Job, quiet: bool, dags: Dags, dagId: string, now: Dags) {
    DagsLater(dags, now) && (quiet ==> MidQuietLoop(job, dags, dagId, now))
  }

  /** With nobody else about: other DAGs are as before, and so are the runs that are not targets. */
  ghost predicate MidQuietLoop(job: Job, dags: Dags, dagId: string, now: Dags) {
    && now == (if dagId in dags then dags[dagId := RunsOf(now, dagId)] else dags)
    && Drained(job, RunsOf(now, dagId), 0) == Drained(job, RunsOf(dags, dagId), 0)
    && Spares(job, RunsOf(dags, dagId), RunsOf(now, dagId))
  }

  /** Fewer than a page of refused runs: then nothing to act upon is left. */
  ghost predicate Complete(job: Job, dags: Dags, dagId: string, now: Dags) {
    |RefusedIds(job, RunsOf(dags, dagId))| < 100 ==> TargetIds(job, RunsOf(now, dagId)) == {}
  }

  lemma MidLoopStart(job: Job, quiet: bool, dags: Dags, dagId: string)
    ensures MidLoop(job, quiet, dags, dagId, dags)
  {
  }

  /** A page begun on `before` and left at `now` keeps what is known of the loop. */
  lemma MidLoopPage(
    job: Job, quiet: bool, dags: Dags, dagId: string, start: Dags, before: Dags,
    page: seq<DagRun>, done: nat, now: Dags, progressed: bool, gone: string)
    requires job.Consumes()
    requires MidLoop(job, quiet, dags, dagId, start)
    requires DagsLater(start, before) && (quiet ==> before == start)
    requires dagId in before && page == Page(job, before[dagId], PAGE_SIZE) && done <= |page|
    requires MidPage(job, quiet, before, dagId, page, done, now, progressed, gone)
    ensures MidLoop(job, quiet, dags, dagId, now)
    ensures progressed ==> SelectedIds(job, RunsOf(now, dagId)) < SelectedIds(job, RunsOf(start, dagId))
  {
    DagsLaterIsTransitive(dags, start, before);
    DagsLaterIsTransitive(dags, before, now);
    LaterMatchesLess(job, RunsOf(start, dagId), before[dagId]);
    LaterMatchesLess(job, before[dagId], RunsOf(now, dagId));
    if quiet {
      QuietPage(job, dags, dagId, before, done);
    }
  }

  lemma QuietPage(job: Job, dags: Dags, dagId: string, before: Dags, done: nat)
    requires job.Consumes() && dagId in before && done <= |Page(job, before[dagId], PAGE_SIZE)|
    requires MidQuietLoop(job, dags, dagId, before)
    ensures MidQuietLoop(job, dags, dagId, before[dagId := ActedOn(job, before[dagId], done)])
  {
    PageSize(job, before[dagId]);
    PageKeepsOutcome(job, before[dagId], done, 0);
    ActedOnSpares(job, before[dagId], done);
  }

  lemma PageSize(job: Job, runs: seq<DagRun>)
    ensures |Page(job, runs, PAGE_SIZE)| <= PAGE_SIZE
  {
    PageMembers(job, runs, PAGE_SIZE);
  }

  /** A page on which nothing progressed: either it is not full, or it is full of refused runs. */
  lemma IdlePageEndsTheLoop(job: Job, dags: Dags, dagId: string, before: Dags, now: Dags, page: seq<DagRun>)
    requires DagsLater(dags, before) && DagsLater(before, now)
    requires dagId in before && DistinctIds(before[dagId]) && page == Page(job, before[dagId], PAGE_SIZE)
    requires Idle(job, page, |page|)
    ensures Complete(job, dags, dagId, now)
    ensures Drained(job, before[dagId], 0) == before[dagId]
  {
    var runs := before[dagId];
    IdlePage(job, page, |page|);
    IdlePageIsTheEnd(job, runs, PAGE_SIZE, 0);
    PageMembers(job, runs, PAGE_SIZE);
    LaterMatchesLess(job, RunsOf(dags, dagId), runs);
    LaterMatchesLess(job, runs, RunsOf(now, dagId));
    if |page| == PAGE_SIZE {
      PageIsDistinct(job, runs, PAGE_SIZE);
      FullPageOfRefused(job, runs, page);
      CardinalityBound(RefusedIds(job, runs), RefusedIds(job, RunsOf(dags, dagId)));
    } else {
      forall i | 0 <= i < |runs| ensures !job.Targets(runs[i]) {
        if job.Selects(runs[i]) {
          assert runs[i] in page;
          var k :| 0 <= k < |page| && page[k] == runs[i];
          assert !job.Acts(page[k]);
        }
      }
      TargetsHaveIds(job, runs);
    }
  }

  lemma CardinalityBound(a: set<string>, b: set<string>)
    requires a <= b
    ensures |a| <= |b|
  {
    assert b == a + (b - a);
  }

  lemma FullPageOfRefused(job: Job, runs: seq<DagRun>, page: seq<DagRun>)
    requires DistinctIds(page)
    requires forall i :: 0 <= i < |page| ==> page[i] in runs && job.Selects(page[i]) && !job.Acts(page[i])
    ensures |RefusedIds(job, runs)| >= |page|
  {
    IdsCount(page, |page|);
    var ids := set i | 0 <= i < |page| :: page[i].id;
    assert ids <= RefusedIds(job, runs) by {
      forall i | 0 <= i < |page| ensures page[i].id in RefusedIds(job, runs) {
        var k :| 0 <= k < |runs| && runs[k] == page[i];
      }
    }
    CardinalityBound(ids, RefusedIds(job, runs));
  }

  lemma {:induction false} IdsCount(runs: seq<DagRun>, n: nat)
    requires DistinctIds(runs) && n <= |runs|
    ensures |set i | 0 <= i < n :: runs[i].id| == n
  {
    if n > 0 {
      IdsCount(runs, n - 1);
      var init := set i | 0 <= i < n - 1 :: runs[i].id;
      OneMoreId(runs, n);
      assert runs[n - 1].id !in init;
    }
  }

  lemma OneMoreId(runs: seq<DagRun>, n: nat)
    requires 0 < n <= |runs|
    ensures (set i | 0 <= i < n :: runs[i].id) == (set i | 0 <= i < n - 1 :: runs[i].id) + {runs[n - 1].id}
  {
  }

  /**
   `_for_each_dag_run`. It always ends: each turn that goes on has taken a run out of the query.
   When it returns without raising, nothing to act upon is left, provided fewer than 100 matching
   runs are refused; and on a quiet server the outcome is exactly `Drained`.
   */
  method ForEachDagRun(server: AirflowServer, dagId: string, job: Job) returns (raised: bool)
    requires server.Valid() && job.broken == server.broken && job.Consumes()
    modifies server
    ensures server.Valid() && (raised ==> job.action.ForceFail?)
    ensures raised ==> SomeTargetIsBroken(job, RunsOf(old(server.dags), dagId), server.broken)
    ensures OnlyAsked(job, dagId, RunsOf(old(server.dags), dagId), old(server.requests), server.requests)
    ensures MidLoop(job, server.quiet, old(server.dags), dagId, server.dags)
    ensures !raised ==> Complete(job, old(server.dags), dagId, server.dags)
    ensures !raised && server.quiet ==> RunsOf(server.dags, dagId) == Drained(job, RunsOf(old(server.dags), dagId), 0)
  {
    ghost var dags, quiet := server.dags, server.quiet;
    MidLoopStart(job, quiet, dags, dagId);
    while true
      invariant server.Valid() && MidLoop(job, quiet, dags, dagId, server.dags)
      invariant OnlyAsked(job, dagId, RunsOf(dags, dagId), old(server.requests), server.requests)
      decreases SelectedIds(job, RunsOf(server.dags, dagId))
    {
      ghost var start := server.dags;
      server.Elapse();
      ghost var before := server.dags;
      DagsLaterIsTransitive(dags, start, before);
      var page := server.GetDagRuns(dagId, job);
      if page.None? || page.value == [] {
        EmptyPageEndsTheLoop(job, dags, dagId, before);
        return false;
      }
      var progressed: bool;
      ghost var done: nat, gone: string;
      ghost var asked := server.requests;
      progressed, raised, done, gone := ActOnPage(server, dagId, job, page.value, before, asked);
      DagsLaterIsTransitive(dags, start, before);
      OnlyAskedGoesOn(job, dagId, RunsOf(dags, dagId), before[dagId], old(server.requests), asked, server.requests);
      MidLoopPage(job, quiet, dags, dagId, start, before, page.value, done, server.dags, progressed, gone);
      if raised {
        StillBroken(job, RunsOf(dags, dagId), before[dagId], server.broken);
        return true;
      }
      if !progressed {
        IdlePageEndsTheLoop(job, dags, dagId, before, server.dags, page.value);
        return false;
      }
    }
  }

  lemma EmptyPageEndsTheLoop(job: Job, dags: Dags, dagId: string, now: Dags)
    requires dagId in now ==> Page(job, now[dagId], PAGE_SIZE) == []
    ensures Complete(job, dags, dagId, now)
    ensures Drained(job, RunsOf(now, dagId), 0) == RunsOf(now, dagId)
  {
    var runs := RunsOf(now, dagId);
    if dagId in now {
      PageMembers(job, runs, PAGE_SIZE);
      IdlePageIsTheEnd(job, runs, PAGE_SIZE, 0);
      assert forall i | 0 <= i < |runs| :: runs[i] in runs && runs[i] !in Page(job, runs, PAGE_SIZE);
    }
  }

  // ---- Cancelling and purging the runs of a dataset ----

  const PROCESS_DAG := "process_dag"
  const STAGING_DAG := "staging_dag"

  function IngestionDag(linkId: string): string { "ingestion_" + linkId }

  /** The job of `_force_fail_dag_runs`. */
  function CancelJob(fold: char -> char, broken: set<string>, prefix: Option<string>, spareManual: bool): Job {
    Job(fold, if prefix.Some? && prefix.value != "" then Some(prefix.value + "%") else None, true,
        ForceFail(prefix, spareManual), broken)
  }

  /** The job of `_delete_dag_runs`. */
  function PurgeJob(fold: char -> char, broken: set<string>, like: string): Job {
    Job(fold, Some(like), false, Delete, broken)
  }

  /** A cancellation looks for the runs that are queued or running, under the prefix if there is one. */
  lemma CancelSelectsExactly(
    fold: char -> char, broken: set<string>, prefix: Option<string>, spareManual: bool, run: DagRun)
    ensures CancelJob(fold, broken, prefix, spareManual).Selects(run)
       <==> && (run.state == Queued || run.state == Running)
            && (prefix.None? || prefix.value == "" || IsILike(fold, run.id, prefix.value + "%"))
  {
  }

  /** Every run id is one of the four shapes. */
  ghost predicate Conventional(runs: seq<DagRun>) {
    forall run | run in runs :: exists r: Run :: ValidRun(r) && RunId(r) == run.id
  }

  /** No run whose id starts with `prefix` is running or queued, manual ones aside if spared. */
  predicate NoneActive(runs: seq<DagRun>, prefix: string, spareManual: bool) {
    forall run | run in runs && StartsWith(run.id, prefix) && !(spareManual && EndsWith(run.id, "_manual")) ::
      run.state == Success || run.state == Failed
  }

  predicate ActiveManual(run: DagRun, prefix: string) {
    (run.state == Queued || run.state == Running) && StartsWith(run.id, prefix) && EndsWith(run.id, "_manual")
  }

  ghost function ActiveManualIds(runs: seq<DagRun>, prefix: string): set<string> {
    set i | 0 <= i < |runs| && ActiveManual(runs[i], prefix) :: runs[i].id
  }

  lemma NoneActiveLater(runs: seq<DagRun>, later: seq<DagRun>, prefix: string, spareManual: bool)
    requires Later(runs, later) && NoneActive(runs, prefix, spareManual)
    ensures NoneActive(later, prefix, spareManual)
  {
    forall run | run in later && StartsWith(run.id, prefix) && !(spareManual && EndsWith(run.id, "_manual"))
      ensures run.state == Success || run.state == Failed
    {
      var before := Earlier(runs, later, run);
    }
  }

  lemma ConventionalLater(runs: seq<DagRun>, later: seq<DagRun>)
    requires Later(runs, later) && Conventional(runs)
    ensures Conventional(later)
  {
    forall run | run in later ensures exists r: Run :: ValidRun(r) && RunId(r) == run.id {
      var before := Earlier(runs, later, run);
    }
  }

  /** The prefixes of a dataset, as the pattern sees them, match what they prefix. */
  lemma DatasetPrefix(fold: char -> char, linkId: string, process: bool, run: Run)
    requires ValidFold(fold) && KeepsIds(fold) && IsLinkId(linkId) && ValidRun(run)
    ensures var prefix := if process then ProcessRunPrefix(linkId) else StagingRunPrefix(linkId);
      IsILike(fold, RunId(run), prefix + "%") <==> StartsWith(RunId(run), prefix)
  {
    PrefixesExactly(linkId, run);
    if process {
      assert ProcessRunPrefix(linkId) + "%" == ProcessRunLike(linkId);
      ProcessLikeExactly(fold, linkId, run);
    } else {
      StagingLikeExactly(fold, linkId, run);
    }
  }

  /** On conventional runs, a cancellation refuses the manual runs it must spare, and nothing else. */
  lemma CancelRefusesOnlyManual(job: Job, runs: seq<DagRun>, linkId: string, process: bool, spareManual: bool)
    requires ValidFold(job.fold) && KeepsIds(job.fold) && IsLinkId(linkId) && Conventional(runs)
    requires job == CancelJob(job.fold, job.broken,
                              Some(if process then ProcessRunPrefix(linkId) else StagingRunPrefix(linkId)), spareManual)
    ensures var prefix := if process then ProcessRunPrefix(linkId) else StagingRunPrefix(linkId);
      && RefusedIds(job, runs) == (if spareManual then ActiveManualIds(runs, prefix) else {})
      && (TargetIds(job, runs) == {} ==> NoneActive(runs, prefix, spareManual))
  {
    var prefix := if process then ProcessRunPrefix(linkId) else StagingRunPrefix(linkId);
    forall i | 0 <= i < |runs|
      ensures job.Selects(runs[i]) <==> Active(runs[i].state) && StartsWith(runs[i].id, prefix)
    {
      assert runs[i] in runs;
      var r: Run :| ValidRun(r) && RunId(r) == runs[i].id;
      DatasetPrefix(job.fold, linkId, process, r);
    }
    TargetsHaveIds(job, runs);
    if TargetIds(job, runs) == {} {
      forall run | run in runs && StartsWith(run.id, prefix) && !(spareManual && EndsWith(run.id, "_manual"))
        ensures run.state == Success || run.state == Failed
      {
        var i :| 0 <= i < |runs| && runs[i] == run;
      }
    }
  }

  /** What is left of conventional runs once a cancellation has nothing more to act upon. */
  lemma CancelIsDone(
    job: Job, runs: seq<DagRun>, now: seq<DagRun>, linkId: string, process: bool, spareManual: bool)
    requires ValidFold(job.fold) && KeepsIds(job.fold) && IsLinkId(linkId) && Conventional(runs) && Later(runs, now)
    requires job == CancelJob(job.fold, job.broken,
                              Some(if process then ProcessRunPrefix(linkId) else StagingRunPrefix(linkId)), spareManual)
    ensures var prefix := if process then ProcessRunPrefix(linkId) else StagingRunPrefix(linkId);
      && prefix != ""
      && (spareManual ==> RefusedIds(job, runs) == ActiveManualIds(runs, prefix))
      && (!spareManual ==> |RefusedIds(job, runs)| == 0)
      && (TargetIds(job, now) == {} ==> NoneActive(now, prefix, spareManual))
  {
    hide CancelJob, Conventional, NoneActive, ActiveManualIds, RefusedIds, TargetIds, Later;
    ConventionalLater(runs, now);
    CancelRefusesOnlyManual(job, runs, linkId, process, spareManual);
    CancelRefusesOnlyManual(job, now, linkId, process, spareManual);
  }

  /** The runs a cancellation leaves alone, if nobody else changes them. */
  lemma CancelSpares(job: Job, runs: seq<DagRun>, now: seq<DagRun>, prefix: string, spareManual: bool)
    requires job == CancelJob(job.fold, job.broken, Some(prefix), spareManual) && prefix != ""
    requires Spares(job, runs, now)
    ensures forall run | run in runs
      && (!StartsWith(run.id, prefix) || Over(run.state) || (spareManual && EndsWith(run.id, "_manual"))) :: run in now
  {
    forall run | run in runs
      && (!StartsWith(run.id, prefix) || Over(run.state) || (spareManual && EndsWith(run.id, "_manual")))
      ensures run in now
    {
      assert !job.Targets(run);
    }
  }

  /** Without a prefix, a cancellation refuses nothing. */
  lemma CancelAllRefusesNothing(job: Job, runs: seq<DagRun>)
    requires job == CancelJob(job.fold, job.broken, None, false)
    ensures RefusedIds(job, runs) == {}
    ensures TargetIds(job, runs) == {} ==> NoneActive(runs, "", false)
  {
    TargetsHaveIds(job, runs);
  }

  // ---- What the cancellations ask of the server, and what stops them ----

  /** A request of one of the shared DAGs, about a run of the dataset. */
  predicate AboutRun(request: Target, dagId: string, prefix: string, spareManual: bool) {
    request.dagId == dagId && StartsWith(request.runId, prefix) && !(spareManual && EndsWith(request.runId, "_manual"))
  }

  /** A request about a run of the dataset: in its own DAG, or in a shared one under its prefix. */
  predicate AboutDataset(request: Target, linkId: string, staging: bool, spareManual: bool) {
    || request.dagId == "ingestion_" + linkId
    || AboutRun(request, "process_dag", linkId + "_", spareManual)
    || (staging && AboutRun(request, "staging_dag", linkId, false))
  }

  ghost predicate AllAboutDataset(
    before: seq<Target>, now: seq<Target>, linkId: string, staging: bool, spareManual: bool)
  {
    && before <= now
    && forall i | |before| <= i < |now| :: AboutDataset(now[i], linkId, staging, spareManual)
  }

  /** An active run that is to be cancelled and that the server refuses to change. */
  predicate BrokenRun(runs: seq<DagRun>, prefix: string, spareManual: bool, broken: set<string>) {
    exists run | run in runs ::
      && StartsWith(run.id, prefix) && (run.state == Queued || run.state == Running)
      && !(spareManual && EndsWith(run.id, "_manual")) && run.id in broken
  }

  predicate BrokenRunOfDataset(dags: Dags, linkId: string, staging: bool, spareManual: bool, broken: set<string>) {
    || BrokenRun(RunsOf(dags, "ingestion_" + linkId), "", false, broken)
    || BrokenRun(RunsOf(dags, "process_dag"), linkId + "_", spareManual, broken)
    || (staging && BrokenRun(RunsOf(dags, "staging_dag"), linkId, false, broken))
  }

  lemma BrokenEarlier(runs: seq<DagRun>, later: seq<DagRun>, prefix: string, spareManual: bool, broken: set<string>)
    requires Later(runs, later) && BrokenRun(later, prefix, spareManual, broken)
    ensures BrokenRun(runs, prefix, spareManual, broken)
  {
    var run :| run in later && StartsWith(run.id, prefix) && (run.state == Queued || run.state == Running)
      && !(spareManual && EndsWith(run.id, "_manual")) && run.id in broken;
    var before := Earlier(runs, later, run);
  }

  /** What a cancellation asks about, and the run that stops it, in terms of prefix and state alone. */
  lemma CancelAsks(job: Job, runs: seq<DagRun>, prefix: string, spareManual: bool)
    requires job == CancelJob(job.fold, job.broken, Some(prefix), spareManual) && prefix != ""
    ensures forall id | id in AskedIds(job, runs) :: StartsWith(id, prefix) && !(spareManual && EndsWith(id, "_manual"))
    ensures SomeTargetIsBroken(job, runs, job.broken) ==> BrokenRun(runs, prefix, spareManual, job.broken)
  {
    if id :| id in TargetIds(job, runs) && id in job.broken {
      var i :| 0 <= i < |runs| && job.Targets(runs[i]) && runs[i].id == id;
      assert runs[i] in runs;
    }
  }

  lemma CancelAllAsks(job: Job, runs: seq<DagRun>)
    requires job == CancelJob(job.fold, job.broken, None, false)
    ensures SomeTargetIsBroken(job, runs, job.broken) ==> BrokenRun(runs, "", false, job.broken)
  {
    if id :| id in TargetIds(job, runs) && id in job.broken {
      var i :| 0 <= i < |runs| && job.Targets(runs[i]) && runs[i].id == id;
      assert runs[i] in runs;
    }
  }

  /** `_force_fail_dag_runs`. */
  method ForceFailDagRuns(server: AirflowServer, dagId: string, prefix: Option<string>, spareManual: bool)
    returns (raised: bool)
    requires server.Valid()
    modifies server
    ensures server.Valid()
    ensures var job := CancelJob(server.fold, server.broken, prefix, spareManual);
      && MidLoop(job, server.quiet, old(server.dags), dagId, server.dags)
      && (!raised ==> Complete(job, old(server.dags), dagId, server.dags))
      && (raised ==> SomeTargetIsBroken(job, RunsOf(old(server.dags), dagId), server.broken))
      && OnlyAsked(job, dagId, RunsOf(old(server.dags), dagId), old(server.requests), server.requests)
  {
    var job := CancelJob(server.fold, server.broken, prefix, spareManual);
    raised := ForEachDagRun(server, dagId, job);
  }

  /** Cancel the runs of a dataset in one of the shared DAGs. */
  method CancelIn(server: AirflowServer, linkId: string, process: bool, spareManual: bool) returns (raised: bool)
    requires server.Valid() && IsLinkId(linkId)
    requires ValidFold(server.fold) && KeepsIds(server.fold)
    requires Conventional(RunsOf(server.dags, if process then PROCESS_DAG else STAGING_DAG))
    modifies server
    ensures server.Valid() && DagsLater(old(server.dags), server.dags)
    ensures var dagId := if process then PROCESS_DAG else STAGING_DAG;
      var prefix := if process then ProcessRunPrefix(linkId) else StagingRunPrefix(linkId);
      && (!raised && (spareManual ==> |ActiveManualIds(RunsOf(old(server.dags), dagId), prefix)| < 100)
          ==> NoneActive(RunsOf(server.dags, dagId), prefix, spareManual))
      && (server.quiet ==> forall run | run in RunsOf(old(server.dags), dagId)
            && (!StartsWith(run.id, prefix) || Over(run.state) || (spareManual && EndsWith(run.id, "_manual"))) ::
            run in RunsOf(server.dags, dagId))
      && (raised ==> BrokenRun(RunsOf(old(server.dags), dagId), prefix, spareManual, server.broken))
      && old(server.requests) <= server.requests
      && (forall i | |old(server.requests)| <= i < |server.requests| ::
            AboutRun(server.requests[i], dagId, prefix, spareManual))
  {
    hide Conventional, NoneActive, ActiveManualIds, RefusedIds, TargetIds, AskedIds, BrokenRun, Drained;
    hide Spares, SomeTargetIsBroken, IsLinkId, Later;
    var dagId := if process then PROCESS_DAG else STAGING_DAG;
    var prefix := if process then ProcessRunPrefix(linkId) else StagingRunPrefix(linkId);
    ghost var dags := server.dags;
    raised := ForceFailDagRuns(server, dagId, Some(prefix), spareManual);
    ghost var job := CancelJob(server.fold, server.broken, Some(prefix), spareManual);
    CancelIsDone(job, RunsOf(dags, dagId), RunsOf(server.dags, dagId), linkId, process, spareManual);
    CancelAsks(job, RunsOf(dags, dagId), prefix, spareManual);
    if server.quiet {
      CancelSpares(job, RunsOf(dags, dagId), RunsOf(server.dags, dagId), prefix, spareManual);
    }
  }

  /**
   `cancel_dataset_runs`: when it returns, no run of the dataset is running or queued, in its own
   DAG or in the shared ones. It raises only because of an active run of the dataset that the server
   refuses to change, and never asks about a run of another dataset.
   */
  method CancelDatasetRuns(server: AirflowServer, linkId: string) returns (raised: bool)
    requires server.Valid() && IsLinkId(linkId)
    requires ValidFold(server.fold) && KeepsIds(server.fold)
    requires Conventional(RunsOf(server.dags, PROCESS_DAG)) && Conventional(RunsOf(server.dags, STAGING_DAG))
    modifies server
    ensures server.Valid() && DagsLater(old(server.dags), server.dags)
    ensures !raised ==>
      && NoneActive(RunsOf(server.dags, "ingestion_" + linkId), "", false)
      && NoneActive(RunsOf(server.dags, "process_dag"), linkId + "_", false)
      && NoneActive(RunsOf(server.dags, "staging_dag"), linkId, false)
    ensures raised ==> BrokenRunOfDataset(old(server.dags), linkId, true, false, server.broken)
    ensures AllAboutDataset(old(server.requests), server.requests, linkId, true, false)
  {
    ghost var dags0 := server.dags;
    raised := CancelIngestion(server, linkId);
    if raised {
      return;
    }
    ghost var dags1 := server.dags;
    ConventionalLater(RunsOf(dags0, PROCESS_DAG), RunsOf(dags1, PROCESS_DAG));
    raised := CancelIn(server, linkId, true, false);
    ghost var dags2 := server.dags;
    DagsLaterIsTransitive(dags0, dags1, dags2);
    if raised {
      BrokenEarlier(RunsOf(dags0, PROCESS_DAG), RunsOf(dags1, PROCESS_DAG), ProcessRunPrefix(linkId), false,
        server.broken);
      return;
    }
    ConventionalLater(RunsOf(dags0, STAGING_DAG), RunsOf(dags2, STAGING_DAG));
    raised := CancelIn(server, linkId, false, false);
    DagsLaterIsTransitive(dags0, dags2, server.dags);
    DagsLaterIsTransitive(dags1, dags2, server.dags);
    NoneActiveLater(RunsOf(dags1, IngestionDag(linkId)), RunsOf(server.dags, IngestionDag(linkId)), "", false);
    if raised {
      BrokenEarlier(RunsOf(dags0, STAGING_DAG), RunsOf(dags2, STAGING_DAG), StagingRunPrefix(linkId), false,
        server.broken);
    } else {
      NoneActiveLater(RunsOf(dags2, PROCESS_DAG), RunsOf(server.dags, PROCESS_DAG), ProcessRunPrefix(linkId), false);
    }
  }

  /** The first step of both cancellations: the DAG of the dataset itself. */
  method CancelIngestion(server: AirflowServer, linkId: string) returns (raised: bool)
    requires server.Valid()
    modifies server
    ensures server.Valid() && DagsLater(old(server.dags), server.dags)
    ensures !raised ==> NoneActive(RunsOf(server.dags, IngestionDag(linkId)), "", false)
    ensures raised ==> BrokenRun(RunsOf(old(server.dags), IngestionDag(linkId)), "", false, server.broken)
    ensures old(server.requests) <= server.requests
    ensures forall i | |old(server.requests)| <= i < |server.requests| ::
      server.requests[i].dagId == IngestionDag(linkId)
    ensures server.quiet ==> forall other | other != IngestionDag(linkId) ::
      RunsOf(server.dags, other) == RunsOf(old(server.dags), other)
  {
    ghost var dags := server.dags;
    raised := ForceFailDagRuns(server, IngestionDag(linkId), None, false);
    ghost var job := CancelJob(server.fold, server.broken, None, false);
    CancelAllRefusesNothing(job, RunsOf(dags, IngestionDag(linkId)));
    CancelAllRefusesNothing(job, RunsOf(server.dags, IngestionDag(linkId)));
    CancelAllAsks(job, RunsOf(dags, IngestionDag(linkId)));
  }

  /**
   `cancel_scheduled_runs`: with fewer than 100 active manual runs of the dataset, it leaves no
   other process run of it active. Whoever else acts on the runs, it never asks the server to change a
   manual process run, a staging run or a run of another dataset.
   */
  method CancelScheduledRuns(server: AirflowServer, linkId: string) returns (raised: bool)
    requires server.Valid() && IsLinkId(linkId)
    requires ValidFold(server.fold) && KeepsIds(server.fold)
    requires Conventional(RunsOf(server.dags, PROCESS_DAG))
    modifies server
    ensures server.Valid() && DagsLater(old(server.dags), server.dags)
    ensures !raised ==> NoneActive(RunsOf(server.dags, "ingestion_" + linkId), "", false)
    ensures !raised && |ActiveManualIds(RunsOf(old(server.dags), "process_dag"), linkId + "_")| < 100
        ==> NoneActive(RunsOf(server.dags, "process_dag"), linkId + "_", true)
    ensures raised ==> BrokenRunOfDataset(old(server.dags), linkId, false, true, server.broken)
    ensures AllAboutDataset(old(server.requests), server.requests, linkId, false, true)
    ensures server.quiet ==>
      forall run | run in RunsOf(old(server.dags), "process_dag") && EndsWith(run.id, "_manual") ::
        run in RunsOf(server.dags, "process_dag")
  {
    ghost var dags0 := server.dags;
    raised := CancelIngestion(server, linkId);
    ghost var dags1 := server.dags;
    IngestionIsNotShared(linkId);
    if raised {
      return;
    }
    ConventionalLater(RunsOf(dags0, PROCESS_DAG), RunsOf(dags1, PROCESS_DAG));
    ManualLater(RunsOf(dags0, PROCESS_DAG), RunsOf(dags1, PROCESS_DAG), ProcessRunPrefix(linkId));
    raised := CancelIn(server, linkId, true, true);
    DagsLaterIsTransitive(dags0, dags1, server.dags);
    NoneActiveLater(RunsOf(dags1, IngestionDag(linkId)), RunsOf(server.dags, IngestionDag(linkId)), "", false);
    if raised {
      BrokenEarlier(RunsOf(dags0, PROCESS_DAG), RunsOf(dags1, PROCESS_DAG), ProcessRunPrefix(linkId), true,
        server.broken);
    }
  }

  lemma IngestionIsNotShared(linkId: string)
    ensures IngestionDag(linkId) != PROCESS_DAG && IngestionDag(linkId) != STAGING_DAG
  {
    assert IngestionDag(linkId)[0] == 'i' && PROCESS_DAG[0] == 'p' && STAGING_DAG[0] == 's';
  }

  lemma ManualLater(runs: seq<DagRun>, later: seq<DagRun>, prefix: string)
    requires Later(runs, later)
    ensures |ActiveManualIds(later, prefix)| <= |ActiveManualIds(runs, prefix)|
  {
    forall i | 0 <= i < |later| && ActiveManual(later[i], prefix) ensures later[i].id in ActiveManualIds(runs, prefix) {
      assert later[i] in later;
      var before := Earlier(runs, later, later[i]);
      var k :| 0 <= k < |runs| && runs[k] == before;
      assert ActiveManual(runs[k], prefix);
    }
    CardinalityBound(ActiveManualIds(later, prefix), ActiveManualIds(runs, prefix));
  }

  /** Of the runs whose id starts with `prefix`, only those the server refuses to delete are left. */
  predicate NoneButBroken(runs: seq<DagRun>, prefix: string, broken: set<string>) {
    forall run | run in runs && StartsWith(run.id, prefix) :: run.id in broken
  }

  lemma NoneButBrokenLater(runs: seq<DagRun>, later: seq<DagRun>, prefix: string, broken: set<string>)
    requires Later(runs, later) && NoneButBroken(runs, prefix, broken)
    ensures NoneButBroken(later, prefix, broken)
  {
    forall run | run in later && StartsWith(run.id, prefix) ensures run.id in broken {
      var before := Earlier(runs, later, run);
    }
  }

  /** The runs under a prefix that the server refuses to delete. */
  ghost function BrokenIds(runs: seq<DagRun>, prefix: string, broken: set<string>): set<string> {
    set i | 0 <= i < |runs| && StartsWith(runs[i].id, prefix) && runs[i].id in broken :: runs[i].id
  }

  lemma BrokenIdsLater(runs: seq<DagRun>, later: seq<DagRun>, prefix: string, broken: set<string>)
    requires Later(runs, later)
    ensures |BrokenIds(later, prefix, broken)| <= |BrokenIds(runs, prefix, broken)|
  {
    forall i | 0 <= i < |later| && StartsWith(later[i].id, prefix) && later[i].id in broken
      ensures later[i].id in BrokenIds(runs, prefix, broken)
    {
      assert later[i] in later;
      var before := Earlier(runs, later, later[i]);
      var k :| 0 <= k < |runs| && runs[k] == before;
    }
    CardinalityBound(BrokenIds(later, prefix, broken), BrokenIds(runs, prefix, broken));
  }

  /** On conventional runs, a purge refuses only runs that cannot be deleted, and asks about no other dataset. */
  lemma PurgeRefusesOnlyBroken(job: Job, runs: seq<DagRun>, linkId: string, process: bool)
    requires ValidFold(job.fold) && KeepsIds(job.fold) && IsLinkId(linkId) && Conventional(runs)
    requires job == PurgeJob(job.fold, job.broken, if process then ProcessRunLike(linkId) else StagingRunLike(linkId))
    ensures
      var prefix := if process then ProcessRunPrefix(linkId) else StagingRunPrefix(linkId);
      && RefusedIds(job, runs) == BrokenIds(runs, prefix, job.broken)
      && (forall id | id in AskedIds(job, runs) :: StartsWith(id, prefix))
      && (TargetIds(job, runs) == {} ==> NoneButBroken(runs, prefix, job.broken))
  {
    var prefix := if process then ProcessRunPrefix(linkId) else StagingRunPrefix(linkId);
    assert job.like == Some(prefix + "%") by {
      assert ProcessRunPrefix(linkId) + "%" == ProcessRunLike(linkId);
    }
    forall i | 0 <= i < |runs| ensures job.Selects(runs[i]) <==> StartsWith(runs[i].id, prefix) {
      assert runs[i] in runs;
      var r: Run :| ValidRun(r) && RunId(r) == runs[i].id;
      DatasetPrefix(job.fold, linkId, process, r);
    }
    TargetsHaveIds(job, runs);
    if TargetIds(job, runs) == {} {
      forall run | run in runs && StartsWith(run.id, prefix) ensures run.id in job.broken {
        var i :| 0 <= i < |runs| && runs[i] == run;
      }
    }
  }

  /** `_delete_dag_runs`, in one of the shared DAGs. */
  method DeleteDagRuns(server: AirflowServer, linkId: string, process: bool)
    requires server.Valid() && IsLinkId(linkId)
    requires ValidFold(server.fold) && KeepsIds(server.fold)
    requires Conventional(RunsOf(server.dags, if process then PROCESS_DAG else STAGING_DAG))
    modifies server
    ensures server.Valid() && DagsLater(old(server.dags), server.dags)
    ensures
      var dagId := if process then "process_dag" else "staging_dag";
      var prefix := if process then linkId + "_" else linkId;
      && (|BrokenIds(RunsOf(old(server.dags), dagId), prefix, server.broken)| < 100 ==>
            NoneButBroken(RunsOf(server.dags, dagId), prefix, server.broken))
      && old(server.requests) <= server.requests
      && (forall i | |old(server.requests)| <= i < |server.requests| ::
        AboutRun(server.requests[i], dagId, prefix, false))
  {
    var dagId := if process then PROCESS_DAG else STAGING_DAG;
    var job := PurgeJob(server.fold, server.broken, if process then ProcessRunLike(linkId) else StagingRunLike(linkId));
    ghost var dags := server.dags;
    var raised := ForEachDagRun(server, dagId, job);
    PurgeRefusesOnlyBroken(job, RunsOf(dags, dagId), linkId, process);
    ConventionalLater(RunsOf(dags, dagId), RunsOf(server.dags, dagId));
    PurgeRefusesOnlyBroken(job, RunsOf(server.dags, dagId), linkId, process);
  }

  /**
   `purge_dataset_dag_runs`: unless 100 runs of the dataset in one DAG cannot be deleted, the history of
   the dataset is gone but for those. No run of another dataset is asked about.
   */
  method PurgeDatasetDagRuns(server: AirflowServer, linkId: string)
    requires server.Valid() && IsLinkId(linkId)
    requires ValidFold(server.fold) && KeepsIds(server.fold)
    requires Conventional(RunsOf(server.dags, PROCESS_DAG)) && Conventional(RunsOf(server.dags, STAGING_DAG))
    modifies server
    ensures server.Valid()
    ensures |BrokenIds(RunsOf(old(server.dags), "staging_dag"), linkId, server.broken)| < 100 ==>
      NoneButBroken(RunsOf(server.dags, "staging_dag"), linkId, server.broken)
    ensures |BrokenIds(RunsOf(old(server.dags), "process_dag"), linkId + "_", server.broken)| < 100 ==>
      NoneButBroken(RunsOf(server.dags, "process_dag"), linkId + "_", server.broken)
    ensures AllAboutDataset(old(server.requests), server.requests, linkId, true, false)
  {
    ghost var dags := server.dags;
    DeleteDagRuns(server, linkId, false);
    ghost var middle := server.dags;
    ConventionalLater(RunsOf(dags, PROCESS_DAG), RunsOf(middle, PROCESS_DAG));
    BrokenIdsLater(RunsOf(dags, PROCESS_DAG), RunsOf(middle, PROCESS_DAG), ProcessRunPrefix(linkId), server.broken);
    DeleteDagRuns(server, linkId, true);
    if NoneButBroken(RunsOf(middle, STAGING_DAG), StagingRunPrefix(linkId), server.broken) {
      NoneButBrokenLater(RunsOf(middle, STAGING_DAG), RunsOf(server.dags, STAGING_DAG), StagingRunPrefix(linkId),
        server.broken);
    }
  }

  // ---- Where the drain loop falls short ----

  /** `n` manual runs of a dataset, all of them active. */
  function ManualRuns(linkId: string, n: nat): seq<DagRun> {
    if n == 0 then [] else ManualRuns(linkId, n - 1) + [DagRun(RunId(ManualProcess(linkId, n - 1)), Running)]
  }

  lemma {:induction false} ManualRunsAreRefused(job: Job, linkId: string, n: nat)
    requires ValidFold(job.fold) && KeepsIds(job.fold) && IsLinkId(linkId)
    requires job == CancelJob(job.fold, job.broken, Some(ProcessRunPrefix(linkId)), true)
    ensures |ManualRuns(linkId, n)| == n == RefusedCount(job, ManualRuns(linkId, n))
  {
    if n > 0 {
      ManualRunsAreRefused(job, linkId, n - 1);
      ManualRunIsRefused(job, linkId, n - 1);
      OneMoreRefused(job, ManualRuns(linkId, n - 1), DagRun(RunId(ManualProcess(linkId, n - 1)), Running));
    }
  }

  lemma OneMoreRefused(job: Job, runs: seq<DagRun>, run: DagRun)
    requires job.Refuses(run)
    ensures RefusedCount(job, runs + [run]) == RefusedCount(job, runs) + 1
  {
    WithoutLast(runs, run);
  }

  lemma ManualRunIsRefused(job: Job, linkId: string, ts: nat)
    requires ValidFold(job.fold) && KeepsIds(job.fold) && IsLinkId(linkId)
    requires job == CancelJob(job.fold, job.broken, Some(ProcessRunPrefix(linkId)), true)
    ensures job.Refuses(DagRun(RunId(ManualProcess(linkId, ts)), Running))
  {
    var run := ManualProcess(linkId, ts);
    DatasetPrefix(job.fold, linkId, true, run);
    PrefixesExactly(linkId, run);
    ManualShapeExactly(run);
  }

  lemma ManualIdsDiffer(linkId: string, a: nat, b: nat)
    requires RunId(ManualProcess(linkId, a)) == RunId(ManualProcess(linkId, b))
    ensures a == b
  {
    var x, y := RunId(ManualProcess(linkId, a)), RunId(ManualProcess(linkId, b));
    assert x[|linkId| + 1..|x| - |MANUAL_RUN_SUFFIX|] == Decimal(a);
    assert y[|linkId| + 1..|y| - |MANUAL_RUN_SUFFIX|] == Decimal(b);
    DecimalRoundTrip(a);
    DecimalRoundTrip(b);
  }

  lemma {:induction false} ManualRunAt(linkId: string, n: nat, i: nat)
    requires i < n
    ensures |ManualRuns(linkId, n)| == n && ManualRuns(linkId, n)[i] == DagRun(RunId(ManualProcess(linkId, i)), Running)
  {
    if i < n - 1 {
      ManualRunAt(linkId, n - 1, i);
    } else if n > 1 {
      ManualRunAt(linkId, n - 1, 0);
    }
  }

  /** Such runs can exist together: their ids are conventional and distinct. */
  lemma ManualRunsAreDistinct(linkId: string, n: nat, ts: string)
    requires IsLinkId(linkId) && IsTsNodash(ts) && n > 0
    ensures
      var runs := ManualRuns(linkId, n) + [DagRun(RunId(ScheduledProcess(linkId, ts)), Running)];
      DistinctIds(runs) && Conventional(runs)
  {
    var runs := ManualRuns(linkId, n) + [DagRun(RunId(ScheduledProcess(linkId, ts)), Running)];
    ManualRunAt(linkId, n, 0);
    forall i, j | 0 <= i < j < |runs| ensures runs[i].id != runs[j].id {
      ManualRunAt(linkId, n, i);
      if j < n {
        ManualRunAt(linkId, n, j);
        if runs[i].id == runs[j].id {
          ManualIdsDiffer(linkId, i, j);
        }
      } else {
        ManualShapeExactly(ManualProcess(linkId, i));
        ManualShapeExactly(ScheduledProcess(linkId, ts));
      }
    }
    forall run | run in runs ensures exists r: Run :: ValidRun(r) && RunId(r) == run.id {
      var i :| 0 <= i < |runs| && runs[i] == run;
      if i < n {
        ManualRunAt(linkId, n, i);
        assert ValidRun(ManualProcess(linkId, i));
      } else {
        assert ValidRun(ScheduledProcess(linkId, ts));
      }
    }
  }

  /** A full page of manual runs, and a scheduled run behind it: cancelling the scheduled runs leaves it running. */
  lemma ScheduledRunIsLeft(job: Job, linkId: string, ts: string)
    requires ValidFold(job.fold) && KeepsIds(job.fold) && IsLinkId(linkId) && IsTsNodash(ts)
    requires job == CancelJob(job.fold, job.broken, Some(ProcessRunPrefix(linkId)), true)
    ensures
      var scheduled := DagRun(RunId(ScheduledProcess(linkId, ts)), Running);
      var runs := ManualRuns(linkId, 100) + [scheduled];
      DistinctIds(runs) && Conventional(runs) && HasTarget(job, Drained(job, runs, 0))
  {
    ManualRunsAreDistinct(linkId, PAGE_SIZE, ts);
    var run := ScheduledProcess(linkId, ts);
    var manual, scheduled := ManualRuns(linkId, PAGE_SIZE), DagRun(RunId(run), Running);
    ManualRunsAreRefused(job, linkId, PAGE_SIZE);
    DatasetPrefix(job.fold, linkId, true, run);
    PrefixesExactly(linkId, run);
    ManualShapeExactly(run);
    var runs := manual + [scheduled];
    assert runs[..PAGE_SIZE] == manual && runs[PAGE_SIZE] == scheduled && job.Targets(runs[PAGE_SIZE]);
    DrainIsCompleteExactly(job, runs);
  }
}
