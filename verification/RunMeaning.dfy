/**
 * What a completed run reports, in terms of what happened to each check: its status, its failure, the
 * point where the run halts, the run's own status, its counts and its primary failure.
 */
module RunMeaning {
  import opened Prelude
  import opened Models
  import opened Failures
  import opened Runner

  // ---- what can happen to a check -------------------------------------------------------------------

  /** The command ran to its end and its output was captured. */
  predicate Ended(a: Attempt) {
    a.Completed? && !a.outcome.timedOut && !a.outcome.captureError
  }

  predicate Succeeded(check: CommandCheck, a: Attempt) {
    Ended(a) && a.outcome.exitCode.Some? && a.outcome.exitCode.value in check.expectedExitCodes
  }

  /** A killed command whose processes or output could not be dealt with. */
  predicate BadTimeout(a: Attempt) {
    && a.Completed? && a.outcome.timedOut
    && (a.outcome.failureCode == Some(SandboxCleanup) || a.outcome.failureCode == Some(OutputCapture))
  }

  /** What stands in the way of evaluating the check is no fault of the command. */
  predicate Infrastructure(a: Attempt) {
    || a.DirectoryMissing? || a.SandboxFailed? || a.LaunchFailed?
    || (a.Completed? && !a.outcome.timedOut && a.outcome.captureError)
    || BadTimeout(a)
  }

  /** The code a check that did not succeed is given. */
  predicate HasCode(a: Attempt, code: Code) {
    && (a.DirectoryMissing? ==> code == WorkingDirectoryMissing)
    && (a.SandboxFailed? ==> code == SandboxRuntime)
    && (a.LaunchFailed? && a.error == NotFound ==> code == CommandNotFound)
    && (a.LaunchFailed? && a.error == AccessDenied ==> code == PermissionDenied)
    && (a.LaunchFailed? && a.error == OtherOSError ==> code == ProcessLaunchError)
    && (a.Completed? && a.outcome.timedOut ==>
          if BadTimeout(a) then a.outcome.failureCode == Some(code) else code == Timeout)
    && (a.Completed? && !a.outcome.timedOut && a.outcome.captureError ==> code == OutputCapture)
    && (Ended(a) && a.outcome.exitCode.Some? ==>
          code == if a.outcome.exitCode.value < 0 then SignalTermination else UnexpectedExit)
  }

  /** The rest of the failure record: whose problem it is, whether to try again, and what lies behind it. */
  predicate Explains(a: Attempt, f: Record) {
    && (Ended(a) ==> f.category == Task && f.retryability == No)
    && (a.Completed? && a.outcome.timedOut && !BadTimeout(a) ==> f.category == Resource && f.retryability == Maybe)
    && (a.DirectoryMissing? ==> f.category == Environment)
    && (a.SandboxFailed? || (BadTimeout(a) && f.code == SandboxCleanup) ==> f.category == Sandbox)
    && (a.LaunchFailed? ==>
          && f.category == (if a.error == NotFound then Dependency else Environment)
          && f.retryability == (if a.error == OtherOSError then Unknown else AfterFix))
    && (f.code == OutputCapture ==> f.category == Observability)
    && (Infrastructure(a) && !a.LaunchFailed? ==> f.retryability == AfterFix)
    && f.causes == (if BadTimeout(a) then [Timeout] else []) && f.causedBy == None
  }

  /** The result of a check that was attempted. */
  predicate Tells(r: CommandResult, check: CommandCheck, a: Attempt) {
    && r.id == check.id
    && (r.status == Passed <==> Succeeded(check, a))
    && (r.status == Errored <==>
          a.DirectoryMissing? || a.SandboxFailed? || a.LaunchFailed?
          || (a.Completed? && !a.outcome.timedOut && a.outcome.captureError))
    && (r.status == TimedOut <==> a.Completed? && a.outcome.timedOut)
    && (r.status == Failed <==> Ended(a) && !Succeeded(check, a))
    && r.exitCode == (if a.Completed? then a.outcome.exitCode else None)
    && (r.failure.None? <==> Succeeded(check, a))
    && (r.failure.Some? ==> HasCode(a, r.failure.value.code) && Explains(a, r.failure.value))
    && (r.failure.Some? ==> (r.failure.value.impact == InfrastructureError <==> Infrastructure(a)))
    && (r.failure.Some? ==> (r.failure.value.impact == EvaluationFailure <==> !Infrastructure(a)))
  }

  lemma {:induction false} JudgeTells(check: CommandCheck, a: Attempt)
    ensures Judge(check, a).Err? <==> a.PathRejected? || (Ended(a) && a.outcome.exitCode.None?)
    ensures Judge(check, a).Ok? ==> Tells(Judge(check, a).value, check, a)
  {
  }

  /** The run halts at the first check that does not succeed and may not be passed over. */
  predicate Halts(check: CommandCheck, a: Attempt) {
    !Succeeded(check, a) && !check.continueOnFailure
  }

  // ---- the results of a run -------------------------------------------------------------------------

  /** How many checks were attempted: all up to the halting one. */
  function Attempted(checks: seq<CommandCheck>, at: nat): nat
    requires at <= |checks|
  {
    if at < |checks| then at + 1 else at
  }

  /** A result for each check, attempted up to the halting one and skipped after it. */
  ghost predicate TellsAll(
    results: seq<CommandResult>, checks: seq<CommandCheck>, attempts: seq<Attempt>, at: nat)
    requires |attempts| == |checks| && at <= |checks|
  {
    && |results| == |checks|
    && (forall i :: 0 <= i < Attempted(checks, at) ==> Tells(results[i], checks[i], attempts[i]))
    && (forall i :: 0 <= i < at ==> !Halts(checks[i], attempts[i]))
    && (at < |checks| ==> Halts(checks[at], attempts[at]))
    && forall i :: at < i < |checks| ==> results[i] == SkippedBy(checks[i].id, checks[at].id)
  }

  function SkippedBy(id: string, blockedBy: string): CommandResult {
    CommandResult(id, Skipped, None,
                  Some(Record(ControlFlow, SkippedAfterFailure, NotEvaluated, AfterFix, Some(blockedBy), [])))
  }

  lemma {:induction false} FollowingTells(
    results: seq<CommandResult>, checks: seq<CommandCheck>, attempts: seq<Attempt>, at: nat)
    requires |attempts| == |checks| == |results| && HaltsAt(checks, attempts, at)
    requires Follows(results, checks, attempts, at)
    ensures TellsAll(results, checks, attempts, at)
  {
    forall i | 0 <= i < Attempted(checks, at)
      ensures Tells(results[i], checks[i], attempts[i])
      ensures Halts(checks[i], attempts[i]) <==> Stops(checks[i], attempts[i])
    {
      JudgeTells(checks[i], attempts[i]);
    }
  }

  // ---- the run's status and counts ------------------------------------------------------------------

  /** The attempted checks with an infrastructure error, and those that failed their evaluation. */
  ghost function Broken(attempts: seq<Attempt>, n: nat): set<int>
    requires n <= |attempts|
  {
    set i | 0 <= i < n && Infrastructure(attempts[i])
  }

  ghost function Unsatisfied(checks: seq<CommandCheck>, attempts: seq<Attempt>, n: nat): set<int>
    requires n <= |attempts| == |checks|
  {
    set i | 0 <= i < n && !Succeeded(checks[i], attempts[i]) && !Infrastructure(attempts[i])
  }

  ghost function WithFailure(results: seq<CommandResult>, impact: Impact): set<int> {
    set i | 0 <= i < |results| && HasImpact(results[i], impact)
  }

  predicate HasImpact(r: CommandResult, impact: Impact) {
    r.failure.Some? && ImpactOf(r.failure.value.code) == impact
  }

  lemma {:induction false} WithFailureGrows(results: seq<CommandResult>, n: nat, impact: Impact)
    requires |results| == n + 1
    ensures |WithFailure(results, impact)| ==
              |WithFailure(results[..n], impact)| + if HasImpact(results[n], impact) then 1 else 0
  {
    var before, after := WithFailure(results[..n], impact), WithFailure(results, impact);
    forall i: int ensures i in after <==> i in before || (i == n && HasImpact(results[n], impact)) {
      assert 0 <= i < n ==> results[..n][i] == results[i];
    }
    assert n !in before && after == before + if HasImpact(results[n], impact) then {n} else {};
  }

  /** Counting codes by impact is counting the results that carry one. */
  lemma {:induction false} CountIsSize(results: seq<CommandResult>, impact: Impact)
    ensures Count(CodesIn(results), WithImpact(impact)) == |WithFailure(results, impact)|
  {
    if results != [] {
      var n := |results| - 1;
      CountIsSize(results[..n], impact);
      WithFailureGrows(results, n, impact);
      if results[n].failure.Some? {
        CountAppendOne(CodesIn(results[..n]), results[n].failure.value.code, WithImpact(impact));
        assert CodesIn(results) == CodesIn(results[..n]) + [results[n].failure.value.code];
      } else {
        assert CodesIn(results) == CodesIn(results[..n]);
      }
    } else {
      assert WithFailure(results, impact) == {};
    }
  }

  /** The counts of the summary, and the status they go with. */
  ghost predicate Accounted(run: RunResult, checks: seq<CommandCheck>, attempts: seq<Attempt>, at: nat)
    requires |attempts| == |checks| && at <= |checks|
  {
    var n := Attempted(checks, at);
    && run.summary.infrastructureErrors == |Broken(attempts, n)|
    && run.summary.evaluationFailures == |Unsatisfied(checks, attempts, n)|
    && run.summary.notEvaluated == |checks| - n
    && run.summary.total == |Broken(attempts, n)| + |Unsatisfied(checks, attempts, n)| + |checks| - n
    && (run.status == RunError <==> exists i :: 0 <= i < n && Infrastructure(attempts[i]))
    && (run.status == RunPassed <==> forall i :: 0 <= i < |checks| ==> Succeeded(checks[i], attempts[i]))
  }

  ghost function Range(a: nat, b: nat): (r: set<int>)
    requires a <= b
    ensures |r| == b - a && forall i :: i in r <==> a <= i < b
  {
    if a == b then {} else Range(a, b - 1) + {b - 1}
  }

  lemma {:induction false} ImpactsByAttempt(
    results: seq<CommandResult>, checks: seq<CommandCheck>, attempts: seq<Attempt>, at: nat)
    requires |attempts| == |checks| && at <= |checks| && TellsAll(results, checks, attempts, at) && AllValid(results)
    ensures var n := Attempted(checks, at);
            && WithFailure(results, InfrastructureError) == Broken(attempts, n)
            && WithFailure(results, EvaluationFailure) == Unsatisfied(checks, attempts, n)
            && WithFailure(results, NotEvaluated) == Range(n, |checks|)
  {
    forall i | 0 <= i < |results|
      ensures ValidResult(results[i])
      ensures i < Attempted(checks, at) ==> Tells(results[i], checks[i], attempts[i])
    {
    }
  }

  lemma {:induction false} StatusByAttempt(
    run: RunResult, checks: seq<CommandCheck>, attempts: seq<Attempt>, at: nat)
    requires |attempts| == |checks| && at <= |checks| && TellsAll(run.checks, checks, attempts, at)
    requires run.status == StatusOf(AnyInfrastructure(run.checks), AnyFailed(run.checks))
    ensures run.status == RunError <==>
              exists i :: 0 <= i < Attempted(checks, at) && Infrastructure(attempts[i])
    ensures run.status == RunPassed <==> forall i :: 0 <= i < |checks| ==> Succeeded(checks[i], attempts[i])
  {
    var results, n := run.checks, Attempted(checks, at);
    forall i | 0 <= i < |results|
      ensures IsInfrastructure(results[i]) <==> i < n && Infrastructure(attempts[i])
      ensures i < n ==> (results[i].status == Passed <==> Succeeded(checks[i], attempts[i]))
    {
      if i < n {
        assert Tells(results[i], checks[i], attempts[i]);
      }
    }
    assert at < |checks| ==> results[at].status != Passed;
  }

  /** What every completed run reports, from the attempts alone. */
  lemma {:induction false} RunTells(
    run: RunResult, capsuleId: string, checks: seq<CommandCheck>, attempts: seq<Attempt>, at: nat)
    requires |attempts| == |checks| && HaltsAt(checks, attempts, at)
    requires Describes(run, capsuleId, checks, attempts, at)
    ensures TellsAll(run.checks, checks, attempts, at) && Accounted(run, checks, attempts, at)
  {
    FollowingTells(run.checks, checks, attempts, at);
    FollowsValid(run.checks, checks, attempts, at);
    StatusByAttempt(run, checks, attempts, at);
    ImpactsByAttempt(run.checks, checks, attempts, at);
    CodesInIsPresent(run.checks);
    CountIsSize(run.checks, InfrastructureError);
    CountIsSize(run.checks, EvaluationFailure);
    CountIsSize(run.checks, NotEvaluated);
    CountByImpact(CodesIn(run.checks));
  }

  // ---- the primary failure --------------------------------------------------------------------------

  /** The first attempted check with an infrastructure error, or else the first that did not succeed. */
  ghost predicate First(checks: seq<CommandCheck>, attempts: seq<Attempt>, n: nat, p: nat)
    requires n <= |attempts| == |checks|
  {
    && p < n && !Succeeded(checks[p], attempts[p])
    && (forall i :: 0 <= i < p ==> !Infrastructure(attempts[i]))
    && (Infrastructure(attempts[p]) ||
        forall i :: 0 <= i < n ==> !Infrastructure(attempts[i]) && (i < p ==> Succeeded(checks[i], attempts[i])))
  }

  lemma {:induction false} RankTells(r: CommandResult, check: CommandCheck, a: Attempt)
    requires Tells(r, check, a) && ValidResult(r) && r.failure.Some?
    ensures Rank(r.failure.value.code) == if Infrastructure(a) then 0 else 1
  {
  }

  /** A run that did not pass names the first check in this sense as its primary failure. */
  lemma {:induction false} PrimaryIsFirst(
    run: RunResult, checks: seq<CommandCheck>, attempts: seq<Attempt>, at: nat, p: nat)
    requires |attempts| == |checks| && at <= |checks| && TellsAll(run.checks, checks, attempts, at)
    requires AllValid(run.checks) && EarliestWorst(run, p)
    ensures First(checks, attempts, Attempted(checks, at), p)
    ensures run.summary.primaryCheckId == Some(checks[p].id)
    ensures run.summary.primaryCode.Some? && HasCode(attempts[p], run.summary.primaryCode.value)
  {
    var n := Attempted(checks, at);
    forall i | 0 <= i < n
      ensures Tells(run.checks[i], checks[i], attempts[i]) && ValidResult(run.checks[i])
      ensures run.checks[i].failure.Some? <==> !Succeeded(checks[i], attempts[i])
      ensures run.checks[i].failure.Some? ==>
                Rank(run.checks[i].failure.value.code) == if Infrastructure(attempts[i]) then 0 else 1
    {
      if run.checks[i].failure.Some? {
        RankTells(run.checks[i], checks[i], attempts[i]);
      }
    }
    assert forall i :: n <= i < |checks| ==> Rank(run.checks[i].failure.value.code) == 2;
    assert n < |checks| ==> run.checks[at].failure.Some?;
  }

  // ---- any completed run ----------------------------------------------------------------------------

  /** All that the attempts decide about a run: its results, status, counts and primary failure. */
  ghost predicate Report(run: RunResult, checks: seq<CommandCheck>, attempts: seq<Attempt>, at: nat)
    requires |attempts| == |checks| && at <= |checks|
  {
    && TellsAll(run.checks, checks, attempts, at) && Accounted(run, checks, attempts, at)
    && (run.status != RunPassed ==> exists p: nat ::
          First(checks, attempts, Attempted(checks, at), p) && run.summary.primaryCheckId == Some(checks[p].id))
  }

  lemma {:induction false} RunReports(
    run: RunResult, capsuleId: string, checks: seq<CommandCheck>, attempts: seq<Attempt>, at: nat)
    requires |attempts| == |checks| && HaltsAt(checks, attempts, at)
    requires forall i, j :: 0 <= i < j < |checks| ==> checks[i].id != checks[j].id
    requires Describes(run, capsuleId, checks, attempts, at)
    ensures Report(run, checks, attempts, at)
  {
    RunTells(run, capsuleId, checks, attempts, at);
    CompletedRunIsValid(run, capsuleId, checks, attempts, at);
    if run.status != RunPassed {
      PrimaryIsEarliestWorst(run);
      var p: nat :| EarliestWorst(run, p);
      PrimaryIsFirst(run, checks, attempts, at, p);
    }
  }

  /** A run is given up only over a rejected path or a command that ended without an exit code. */
  lemma {:induction false} AbortsOver(checks: seq<CommandCheck>, attempts: seq<Attempt>, at: nat, i: nat)
    requires |attempts| == |checks| && i < |checks|
    ensures Aborts(checks, attempts, at, i) <==>
              attempts[i].PathRejected? || (i <= at && Ended(attempts[i]) && attempts[i].outcome.exitCode.None?)
  {
    JudgeTells(checks[i], attempts[i]);
  }
}
