/**
 * The check loop shared by bound_runner.py and runner.py, with the validators of its results.
 * What the operating system does with each check is an arbitrary sequence of attempts.
 */
module Runner {
  import opened Prelude
  import opened Models
  import opened Failures

  datatype CheckStatus = Passed | Failed | TimedOut | Errored | Skipped

  datatype RunStatus = RunPassed | RunFailed | RunError

  datatype Outcome = Outcome(exitCode: Option<int>, timedOut: bool, captureError: bool, failureCode: Option<Code>)

  /** What happens when a check is tried. */
  datatype Attempt =
    | DirectoryMissing
    | PathRejected
    | SandboxFailed
    | LaunchFailed(error: LaunchError)
    | Completed(outcome: Outcome)

  datatype CommandResult = CommandResult(
    id: string, status: CheckStatus, exitCode: Option<int>, failure: Option<Record>)

  datatype RunResult = RunResult(
    capsuleId: string, status: RunStatus, checks: seq<CommandResult>, summary: Summary)

  datatype RunnerError = UnsafeDirectory | MissingExitCode

  /** The failure codes each status may carry. */
  function CodesOf(status: CheckStatus): set<Code> {
    match status
    case Passed => {}
    case Failed => {UnexpectedExit, SignalTermination}
    case TimedOut => {Timeout, SandboxCleanup, OutputCapture}
    case Errored => {CommandNotFound, PermissionDenied, ProcessLaunchError, WorkingDirectoryMissing,
                     SandboxConfiguration, SandboxRuntime, OutputCapture}
    case Skipped => {SkippedAfterFailure}
  }

  /** `CommandResult.failure_must_match_status`, with the record's own validator. */
  predicate ValidResult(r: CommandResult) {
    if r.status == Passed then r.failure.None?
    else r.failure.Some? && ValidRecord(r.failure.value) && r.failure.value.code in CodesOf(r.status)
  }

  /** The result of one attempted check, or the RunnerError that aborts the run. */
  function Judge(check: CommandCheck, attempt: Attempt): (r: Result<CommandResult, RunnerError>)
    ensures r.Ok? ==> ValidResult(r.value) && r.value.id == check.id && r.value.status != Skipped
    ensures r.Ok? && r.value.status == Passed ==>
              attempt.Completed? && attempt.outcome.exitCode.Some? && !attempt.outcome.timedOut &&
              attempt.outcome.exitCode.value in check.expectedExitCodes
  {
    match attempt
    case PathRejected => Err(UnsafeDirectory)
    case DirectoryMissing => Ok(CommandResult(check.id, Errored, None, Some(WorkingDirectoryFailure())))
    case SandboxFailed => Ok(CommandResult(check.id, Errored, None, Some(SandboxFailure(false))))
    case LaunchFailed(error) => Ok(CommandResult(check.id, Errored, None, Some(LaunchFailure(error))))
    case Completed(o) =>
      if o.timedOut then Ok(CommandResult(check.id, TimedOut, o.exitCode, Some(TimeoutFailure(o.failureCode))))
      else if o.captureError then Ok(CommandResult(check.id, Errored, o.exitCode, Some(OutputCaptureFailure())))
      else if o.exitCode.None? then Err(MissingExitCode)
      else if o.exitCode.value in check.expectedExitCodes then Ok(CommandResult(check.id, Passed, o.exitCode, None))
      else Ok(CommandResult(check.id, Failed, o.exitCode, Some(UnexpectedExitFailure(o.exitCode.value))))
  }

  function SkippedResult(check: CommandCheck, blockedBy: string): (r: CommandResult)
    ensures ValidResult(r) && r.status == Skipped && r.id == check.id
    ensures r.failure.Some? && r.failure.value.causedBy == Some(blockedBy)
  {
    CommandResult(check.id, Skipped, None, Some(SkippedFailure(blockedBy)))
  }

  predicate Stops(check: CommandCheck, attempt: Attempt) {
    var r := Judge(check, attempt);
    r.Ok? && r.value.status != Passed && !check.continueOnFailure
  }

  /** `at` is the check that halts the run, or the number of checks when none does. */
  ghost predicate HaltsAt(checks: seq<CommandCheck>, attempts: seq<Attempt>, at: nat)
    requires |attempts| == |checks|
  {
    && at <= |checks|
    && (forall i :: 0 <= i < at ==> !Stops(checks[i], attempts[i]))
    && (at < |checks| ==> Stops(checks[at], attempts[at]))
  }

  /** One result a check, in order: judged up to the halting check, skipped and blamed on it after. */
  ghost predicate Follows(results: seq<CommandResult>, checks: seq<CommandCheck>, attempts: seq<Attempt>, at: nat)
    requires |attempts| == |checks|
  {
    && |results| <= |checks|
    && forall i :: 0 <= i < |results| ==>
         if i <= at then Judge(checks[i], attempts[i]) == Ok(results[i])
         else at < |checks| && results[i] == SkippedResult(checks[i], checks[at].id)
  }

  /** A check whose attempt aborts the whole run. */
  ghost predicate Aborts(checks: seq<CommandCheck>, attempts: seq<Attempt>, at: nat, i: nat)
    requires |attempts| == |checks| && i < |checks|
  {
    if i <= at then Judge(checks[i], attempts[i]).Err? else attempts[i].PathRejected?
  }

  function IsInfrastructure(r: CommandResult): bool {
    r.failure.Some? && r.failure.value.impact == InfrastructureError
  }

  function Entries(results: seq<CommandResult>): (r: seq<Entry>)
    ensures |r| == |results|
    ensures forall i :: 0 <= i < |r| ==> r[i] == Entry(results[i].id, results[i].failure)
  {
    seq(|results|, i requires 0 <= i < |results| => Entry(results[i].id, results[i].failure))
  }

  function StatusOf(infrastructureError: bool, failed: bool): RunStatus {
    if infrastructureError then RunError else if failed then RunFailed else RunPassed
  }

  ghost predicate AnyInfrastructure(results: seq<CommandResult>) {
    exists i :: 0 <= i < |results| && IsInfrastructure(results[i])
  }

  predicate AnyFailed(results: seq<CommandResult>) {
    exists i :: 0 <= i < |results| && results[i].status != Passed
  }

  ghost predicate AllValid(results: seq<CommandResult>) {
    forall i :: 0 <= i < |results| ==> ValidResult(results[i])
  }

  /** The check loop of `run_capsule_bound_local` and `run_capsule`. */
  method RunChecks(capsuleId: string, checks: seq<CommandCheck>, attempts: seq<Attempt>)
    returns (run: Result<RunResult, RunnerError>)
    requires |attempts| == |checks|
    requires forall i, j :: 0 <= i < j < |checks| ==> checks[i].id != checks[j].id
    ensures run.Ok? ==> exists at ::
              HaltsAt(checks, attempts, at) && Describes(run.value, capsuleId, checks, attempts, at)
    ensures run.Err? ==> exists at, i: nat ::
              HaltsAt(checks, attempts, at) && i < |checks| && Aborts(checks, attempts, at, i)
    ensures run.Ok? ==> forall at, i: nat ::
              HaltsAt(checks, attempts, at) && i < |checks| ==> !Aborts(checks, attempts, at, i)
  {
    ghost var at := FindHalt(checks, attempts, 0);
    OnlyOneHalt(checks, attempts, at);
    var results, infrastructureError := RunEach(checks, attempts, at);
    if results.Err? {
      return Err(results.error);
    }
    FollowsValid(results.value, checks, attempts, at);
    var summary := SummarizeResults(results.value);
    run := Ok(RunResult(capsuleId, StatusOf(infrastructureError, AnyFailed(results.value)), results.value, summary));
    assert Describes(run.value, capsuleId, checks, attempts, at);
  }

  /** Its loop: one result a check, unless an attempt aborts the run. */
  method RunEach(checks: seq<CommandCheck>, attempts: seq<Attempt>, ghost at: nat)
    returns (outcome: Result<seq<CommandResult>, RunnerError>, infrastructureError: bool)
    requires |attempts| == |checks| && HaltsAt(checks, attempts, at)
    ensures outcome.Ok? ==> |outcome.value| == |checks| && Follows(outcome.value, checks, attempts, at)
    ensures outcome.Ok? ==> (infrastructureError <==> AnyInfrastructure(outcome.value))
    ensures outcome.Ok? <==> forall i :: 0 <= i < |checks| ==> !Aborts(checks, attempts, at, i)
  {
    var results: seq<CommandResult> := [];
    var halt := false;
    var blockedBy: Option<string> := None;
    infrastructureError := false;
    for i := 0 to |checks|
      invariant |results| == i && Follows(results, checks, attempts, at)
      invariant forall j :: 0 <= j < i ==> !Aborts(checks, attempts, at, j)
      invariant halt <==> at < i
      invariant halt ==> blockedBy == Some(checks[at].id)
      invariant infrastructureError <==> AnyInfrastructure(results)
    {
      var check := checks[i];
      ghost var before := results;
      if halt {
        if attempts[i].PathRejected? {
          assert Aborts(checks, attempts, at, i);
          return Err(UnsafeDirectory), infrastructureError;
        }
        results := results + [SkippedResult(check, blockedBy.value)];
      } else {
        var judged := Judge(check, attempts[i]);
        if judged.Err? {
          assert Aborts(checks, attempts, at, i);
          return Err(judged.error), infrastructureError;
        }
        results := results + [judged.value];
        if IsInfrastructure(judged.value) {
          infrastructureError := true;
        }
        if judged.value.status != Passed {
          blockedBy := Some(check.id);
          halt := !check.continueOnFailure;
        }
      }
      InfrastructureGrows(before, results);
      FollowsGrows(before, results, checks, attempts, at);
    }
    outcome := Ok(results);
  }

  /** What a completed run reports. */
  ghost predicate Describes(
    r: RunResult, capsuleId: string, checks: seq<CommandCheck>, attempts: seq<Attempt>, at: nat)
    requires |attempts| == |checks|
  {
    && r.capsuleId == capsuleId
    && |r.checks| == |checks| && Follows(r.checks, checks, attempts, at)
    && Summarizes(r.summary, Entries(r.checks))
    && r.status == StatusOf(AnyInfrastructure(r.checks), AnyFailed(r.checks))
  }

  lemma {:induction false} FollowsGrows(
    before: seq<CommandResult>, after: seq<CommandResult>, checks: seq<CommandCheck>, attempts: seq<Attempt>, at: nat)
    requires |attempts| == |checks| && Follows(before, checks, attempts, at)
    requires |after| == |before| + 1 <= |checks| && before <= after
    requires var i := |before|;
             if i <= at then Judge(checks[i], attempts[i]) == Ok(after[i])
             else at < |checks| && after[i] == SkippedResult(checks[i], checks[at].id)
    ensures Follows(after, checks, attempts, at)
  {
    forall i | 0 <= i < |after|
      ensures if i <= at then Judge(checks[i], attempts[i]) == Ok(after[i])
              else at < |checks| && after[i] == SkippedResult(checks[i], checks[at].id)
    {
      if i < |before| {
        assert after[i] == before[i];
      }
    }
  }

  lemma {:induction false} FollowsValid(
    results: seq<CommandResult>, checks: seq<CommandCheck>, attempts: seq<Attempt>, at: nat)
    requires |attempts| == |checks| && Follows(results, checks, attempts, at)
    ensures AllValid(results)
    ensures forall i :: 0 <= i < |results| ==> results[i].id == checks[i].id
    ensures forall i :: 0 <= i < |results| ==> (results[i].status == Skipped <==> i > at)
  {
    forall i | 0 <= i < |results|
      ensures ValidResult(results[i]) && results[i].id == checks[i].id
      ensures results[i].status == Skipped <==> i > at
    {
    }
  }

  method SummarizeResults(results: seq<CommandResult>) returns (summary: Summary)
    requires AllValid(results)
    ensures Summarizes(summary, Entries(results))
  {
    summary := SummarizeFailures(Entries(results));
  }

  ghost function FindHalt(checks: seq<CommandCheck>, attempts: seq<Attempt>, from: nat): (at: nat)
    requires |attempts| == |checks| && from <= |checks|
    requires forall i :: 0 <= i < from ==> !Stops(checks[i], attempts[i])
    ensures HaltsAt(checks, attempts, at)
    decreases |checks| - from
  {
    if from == |checks| || Stops(checks[from], attempts[from]) then from else FindHalt(checks, attempts, from + 1)
  }

  lemma {:induction false} OnlyOneHalt(checks: seq<CommandCheck>, attempts: seq<Attempt>, at: nat)
    requires |attempts| == |checks| && HaltsAt(checks, attempts, at)
    ensures forall other :: HaltsAt(checks, attempts, other) ==> other == at
  {
  }

  lemma {:induction false} InfrastructureGrows(before: seq<CommandResult>, after: seq<CommandResult>)
    requires |after| == |before| + 1 && before <= after
    ensures AnyInfrastructure(after) <==> AnyInfrastructure(before) || IsInfrastructure(after[|before|])
  {
    if j :| 0 <= j < |before| && IsInfrastructure(before[j]) {
      assert after[j] == before[j];
    }
    if j :| 0 <= j < |after| && IsInfrastructure(after[j]) {
      assert j < |before| ==> before[j] == after[j];
    }
  }

  // ---- the run validator ------------------------------------------------------------------------

  /** Skipped results form a suffix blamed on the check just before it, which did not pass. */
  ghost predicate SkipsFrom(results: seq<CommandResult>, k: nat) {
    && k <= |results|
    && (forall i :: 0 <= i < k ==> results[i].status != Skipped)
    && (k < |results| ==> k > 0 && results[k - 1].status != Passed)
    && forall i :: k <= i < |results| ==>
         k > 0 && results[i].status == Skipped && results[i].failure.Some? &&
         results[i].failure.value.causedBy == Some(results[k - 1].id)
  }

  /** `RunResult.result_must_be_consistent`, clocks aside. */
  ghost predicate ValidRun(r: RunResult) {
    && (forall i, j :: 0 <= i < j < |r.checks| ==> r.checks[i].id != r.checks[j].id)
    && (exists k :: SkipsFrom(r.checks, k))
    && Summarizes(r.summary, Entries(r.checks))
    && r.status == StatusOf(AnyInfrastructure(r.checks), AnyFailed(r.checks))
  }

  /** The validator's own loop decides the skip condition. */
  method SkipsAreConsistent(results: seq<CommandResult>) returns (ok: bool)
    requires forall i :: 0 <= i < |results| && results[i].failure.None? ==> results[i].status != Skipped
    ensures ok <==> exists k :: SkipsFrom(results, k)
  {
    var skippedStarted := false;
    var blocking: Option<string> := None;
    ghost var k: nat := 0;
    for i := 0 to |results|
      invariant !skippedStarted ==> forall j :: 0 <= j < i ==> results[j].status != Skipped
      invariant skippedStarted ==> 0 < k < i && SkipsFrom(results[..i], k) && blocking == Some(results[k - 1].id)
    {
      if skippedStarted && results[i].status != Skipped {
        NoOtherSkipStart(results, i, k);
        return false;
      }
      if results[i].status == Skipped {
        if !skippedStarted {
          skippedStarted := true;
          if i == 0 || results[i - 1].status in {Passed, Skipped} {
            return false;
          }
          blocking := Some(results[i - 1].id);
          k := i;
        }
        if results[i].failure.None? || results[i].failure.value.causedBy != blocking {
          NoOtherSkipStart(results, i, k);
          return false;
        }
      }
    }
    assert results[..|results|] == results;
    if !skippedStarted {
      assert SkipsFrom(results, |results|);
    }
    return true;
  }

  lemma {:induction false} NoOtherSkipStart(results: seq<CommandResult>, i: nat, k: nat)
    requires 0 < k <= i < |results|
    requires forall j :: 0 <= j < k ==> results[j].status != Skipped
    requires results[k].status == Skipped
    ensures forall other: nat :: SkipsFrom(results, other) ==> other == k
  {
    forall other: nat | SkipsFrom(results, other) ensures other == k {
      var there, here := results[if other < |results| then other else k].status, results[k].status;
    }
  }

  /** Every completed run passes the run validator, which the runner applies to its own result. */
  lemma {:induction false} CompletedRunIsValid(
    r: RunResult, capsuleId: string, checks: seq<CommandCheck>, attempts: seq<Attempt>, at: nat)
    requires |attempts| == |checks|
    requires forall i, j :: 0 <= i < j < |checks| ==> checks[i].id != checks[j].id
    requires HaltsAt(checks, attempts, at) && Describes(r, capsuleId, checks, attempts, at)
    ensures ValidRun(r) && AllValid(r.checks)
  {
    FollowsValid(r.checks, checks, attempts, at);
    FollowsSkips(r.checks, checks, attempts, at);
    assert SkipsFrom(r.checks, if at < |checks| then at + 1 else at);
  }

  lemma {:induction false} FollowsSkips(
    results: seq<CommandResult>, checks: seq<CommandCheck>, attempts: seq<Attempt>, at: nat)
    requires |attempts| == |checks| == |results|
    requires HaltsAt(checks, attempts, at) && Follows(results, checks, attempts, at)
    ensures SkipsFrom(results, if at < |checks| then at + 1 else at)
  {
    FollowsValid(results, checks, attempts, at);
    if at < |checks| {
      assert Stops(checks[at], attempts[at]) && Judge(checks[at], attempts[at]) == Ok(results[at]);
    }
  }

  // ---- status and summary agree -------------------------------------------------------------------

  /** The failure codes of the results, in order. */
  function CodesIn(results: seq<CommandResult>): seq<Code> {
    if results == [] then []
    else
      var n := |results| - 1;
      CodesIn(results[..n]) + (if results[n].failure.Some? then [results[n].failure.value.code] else [])
  }

  function EntryOf(r: CommandResult): Entry {
    Entry(r.id, r.failure)
  }

  lemma {:induction false} PresentStep(results: seq<CommandResult>)
    requires results != []
    ensures var n := |results| - 1;
            Present(Entries(results)) == Present(Entries(results[..n])) +
              (if results[n].failure.Some? then [EntryOf(results[n])] else [])
  {
    var n := |results| - 1;
    assert Entries(results)[..n] == Entries(results[..n]);
  }

  lemma {:induction false} CodesAppend(present: seq<Entry>, last: Entry)
    requires last.failure.Some? && forall e :: e in present ==> e.failure.Some?
    ensures Codes(present + [last]) == Codes(present) + [last.failure.value.code]
  {
  }

  lemma {:induction false} CodesInIsPresent(results: seq<CommandResult>)
    ensures CodesIn(results) == Codes(Present(Entries(results)))
  {
    if results != [] {
      var n := |results| - 1;
      CodesInIsPresent(results[..n]);
      PresentStep(results);
      if results[n].failure.Some? {
        CodesAppend(Present(Entries(results[..n])), EntryOf(results[n]));
      }
    }
  }

  lemma {:induction false} CountAppendOne<T>(xs: seq<T>, x: T, keep: T -> bool)
    ensures Count(xs + [x], keep) == Count(xs, keep) + (if keep(x) then 1 else 0)
  {
    assert (xs + [x])[..|xs|] == xs;
  }

  lemma {:induction false} InfrastructureCounted(results: seq<CommandResult>)
    requires AllValid(results)
    ensures AnyInfrastructure(results) <==> Count(CodesIn(results), WithImpact(InfrastructureError)) > 0
  {
    if results != [] {
      var n := |results| - 1;
      InfrastructureCounted(results[..n]);
      InfrastructureGrows(results[..n], results);
      assert ValidResult(results[n]);
      if results[n].failure.Some? {
        var code := results[n].failure.value.code;
        CountAppendOne(CodesIn(results[..n]), code, WithImpact(InfrastructureError));
        assert WithImpact(InfrastructureError)(code) <==> IsInfrastructure(results[n]);
        assert CodesIn(results) == CodesIn(results[..n]) + [code];
      } else {
        assert CodesIn(results) == CodesIn(results[..n]);
      }
    }
  }

  lemma {:induction false} FailedCounted(results: seq<CommandResult>)
    requires AllValid(results)
    ensures AnyFailed(results) <==> CodesIn(results) != []
  {
    if results != [] {
      var n := |results| - 1;
      FailedCounted(results[..n]);
      assert ValidResult(results[n]);
      if AnyFailed(results[..n]) {
        var i :| 0 <= i < n && results[..n][i].status != Passed;
        assert results[i].status != Passed;
      }
    }
  }

  /** ERROR means the summary counts an infrastructure error, PASSED that it counts nothing. */
  lemma {:induction false} StatusMatchesSummary(r: RunResult)
    requires ValidRun(r) && AllValid(r.checks)
    ensures ValidSummary(r.summary)
    ensures r.status == RunError <==> r.summary.infrastructureErrors > 0
    ensures r.status == RunPassed <==> r.summary.total == 0
  {
    SummaryIsValid(r.summary, Entries(r.checks));
    InfrastructureCounted(r.checks);
    FailedCounted(r.checks);
    CodesInIsPresent(r.checks);
    if AnyInfrastructure(r.checks) {
      var i :| 0 <= i < |r.checks| && IsInfrastructure(r.checks[i]);
      assert ValidResult(r.checks[i]);
    }
  }

  predicate FailsWith(r: CommandResult, code: Code) {
    r.failure.Some? && r.failure.value.code == code
  }

  lemma {:induction false} CodesInMember(results: seq<CommandResult>, code: Code)
    ensures code in CodesIn(results) <==> exists i :: 0 <= i < |results| && FailsWith(results[i], code)
  {
    if results != [] {
      var n := |results| - 1;
      CodesInMember(results[..n], code);
      if i :| 0 <= i < n && FailsWith(results[i], code) {
        assert results[..n][i] == results[i];
      }
    }
  }

  lemma {:induction false} PrimaryOutranksSkips(results: seq<CommandResult>, codes: seq<Code>, at: nat)
    requires AllValid(results) && codes == CodesIn(results) && IsPrimary(codes, at)
    requires exists k :: SkipsFrom(results, k)
    ensures codes[at] != SkippedAfterFailure
  {
    if codes[at] == SkippedAfterFailure {
      SkipIsOutranked(results, codes);
    }
  }

  /** The primary failure never is a skip: the check that caused the skips outranks them. */
  lemma {:induction false} PrimaryIsNotASkip(r: RunResult)
    requires ValidRun(r) && AllValid(r.checks)
    ensures r.summary.primaryCode != Some(SkippedAfterFailure)
  {
    var codes := CodesIn(r.checks);
    CodesInIsPresent(r.checks);
    if codes != [] {
      var at: nat :| PrimaryAt(r.summary, Present(Entries(r.checks)), codes, at);
      PrimaryOutranksSkips(r.checks, codes, at);
    }
  }

  /** The failure that blocked the skipped checks is not itself a skip. */
  lemma {:induction false} BlockerIsNoSkip(results: seq<CommandResult>, k: nat) returns (code: Code)
    requires AllValid(results) && SkipsFrom(results, k) && k < |results|
    ensures Rank(code) < Rank(SkippedAfterFailure)
    ensures results[k - 1].failure.Some? && results[k - 1].failure.value.code == code
  {
    assert ValidResult(results[k - 1]);
    code := results[k - 1].failure.value.code;
  }

  lemma {:induction false} SkipIsOutranked(results: seq<CommandResult>, codes: seq<Code>)
    requires AllValid(results) && codes == CodesIn(results) && SkippedAfterFailure in codes
    requires exists k :: SkipsFrom(results, k)
    ensures exists j :: 0 <= j < |codes| && Rank(codes[j]) < Rank(SkippedAfterFailure)
  {
    CodesInMember(results, SkippedAfterFailure);
    var i :| 0 <= i < |results| && FailsWith(results[i], SkippedAfterFailure);
    assert ValidResult(results[i]);
    var k :| SkipsFrom(results, k);
    var code := BlockerIsNoSkip(results, k);
    assert FailsWith(results[k - 1], code);
    CodesInMember(results, code);
    var j :| 0 <= j < |codes| && codes[j] == code;
  }

  /** Where the failures stand among the results. */
  function Positions(results: seq<CommandResult>): seq<int> {
    if results == [] then []
    else
      var n := |results| - 1;
      Positions(results[..n]) + (if results[n].failure.Some? then [n] else [])
  }

  /** `positions` lists, in increasing order, exactly the failed results; `codes` are their codes. */
  ghost predicate Locates(positions: seq<int>, codes: seq<Code>, present: seq<Entry>, results: seq<CommandResult>) {
    && |positions| == |codes| == |present|
    && (forall j :: 0 <= j < |positions| ==>
          && 0 <= positions[j] < |results| && results[positions[j]].failure.Some?
          && results[positions[j]].failure.value.code == codes[j]
          && results[positions[j]].id == present[j].checkId)
    && (forall j, k :: 0 <= j < k < |positions| ==> positions[j] < positions[k])
    && forall i :: 0 <= i < |results| && results[i].failure.Some? ==> i in positions
  }

  lemma {:induction false} LocatesGrows(
    positions: seq<int>, codes: seq<Code>, present: seq<Entry>, before: seq<CommandResult>, last: CommandResult)
    requires Locates(positions, codes, present, before)
    ensures last.failure.None? ==> Locates(positions, codes, present, before + [last])
    ensures last.failure.Some? ==>
              Locates(positions + [|before|], codes + [last.failure.value.code],
                      present + [Entry(last.id, last.failure)], before + [last])
  {
  }

  lemma {:induction false} PositionsLocate(results: seq<CommandResult>)
    ensures Locates(Positions(results), CodesIn(results), Present(Entries(results)), results)
  {
    if results != [] {
      var n := |results| - 1;
      PositionsLocate(results[..n]);
      LocatesGrows(Positions(results[..n]), CodesIn(results[..n]), Present(Entries(results[..n])), results[..n],
          results[n]);
      assert results[..n] + [results[n]] == results;
      PresentStep(results);
    }
  }

  /** The primary failure belongs to the earliest check among those of the worst impact. */
  ghost predicate EarliestWorst(r: RunResult, p: nat) {
    && p < |r.checks| && r.checks[p].failure.Some?
    && r.summary.primaryCheckId == Some(r.checks[p].id)
    && r.summary.primaryCode == Some(r.checks[p].failure.value.code)
    && forall i :: 0 <= i < |r.checks| && r.checks[i].failure.Some? ==>
         var mine, other := Rank(r.checks[p].failure.value.code), Rank(r.checks[i].failure.value.code);
         mine <= other && (i < p ==> mine < other)
  }

  lemma {:induction false} PrimaryIsEarliestWorst(r: RunResult)
    requires ValidRun(r) && AllValid(r.checks) && r.status != RunPassed
    ensures exists p: nat :: EarliestWorst(r, p)
  {
    var codes, present := CodesIn(r.checks), Present(Entries(r.checks));
    CodesInIsPresent(r.checks);
    StatusMatchesSummary(r);
    PositionsLocate(r.checks);
    var at: nat :| PrimaryAt(r.summary, present, codes, at);
    LocatedPrimary(r, Positions(r.checks), codes, present, at);
  }

  lemma {:induction false} LocatedPrimary(
    r: RunResult, positions: seq<int>, codes: seq<Code>, present: seq<Entry>, at: nat)
    requires Locates(positions, codes, present, r.checks) && PrimaryAt(r.summary, present, codes, at)
    ensures EarliestWorst(r, positions[at])
  {
    var p := positions[at];
    forall i | 0 <= i < |r.checks| && r.checks[i].failure.Some?
      ensures var mine, other := Rank(r.checks[p].failure.value.code), Rank(r.checks[i].failure.value.code);
              mine <= other && (i < p ==> mine < other)
    {
      var j :| 0 <= j < |positions| && positions[j] == i;
      assert j > at ==> positions[at] < positions[j];
    }
  }
}
