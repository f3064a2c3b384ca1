/**
 * Capsule compilation of compiler.py: generated oracle mutations, the verification that runs them,
 * and the gate that releases a capsule.
 */
module Compiler {
  import opened Prelude
  import opened Models
  import opened Oracles
  import R = Runner
  import OracleMeaning

  const MUTATION_ID_ENV := "E2H_MUTATION_ID"
  const PROPOSAL_ID_ENV := "E2H_PROPOSAL_ID"
  const MAX_MUTATIONS := 100

  datatype Mutation = Mutation(id: string, env: map<string, string>, checkIds: seq<string>)

  datatype Spec = Spec(
    id: string, checks: seq<CommandCheck>, oracles: seq<Template>, autoMutate: bool,
    mutations: seq<Mutation>, maxCommands: int)

  function UpperChar(c: char): char {
    if 'a' <= c <= 'z' then (c as int - 'a' as int + 'A' as int) as char else c
  }

  function Upper(s: string): string {
    MapSeq(UpperChar, s)
  }

  /** Names a hand-written check must not set, whatever their case. */
  predicate ReservedCheckEnv(name: string) {
    Upper(name) == MUTATION_ID_ENV || Upper(name) == PROPOSAL_ID_ENV || Upper(name) == MUTATION_ENV
  }

  function MutationIdOf(oracle: Template): string {
    "oracle-" + oracle.id
  }

  /** One mutation an oracle, aimed at its own check. */
  function Generated(oracle: Template): Mutation {
    Mutation(MutationIdOf(oracle), map[MUTATION_ENV := OperatorOf(oracle)], [oracle.id])
  }

  function CompiledOracles(lib: Library, oracles: seq<Template>): seq<CommandCheck>
    requires forall i :: 0 <= i < |oracles| ==> CompileOracle(lib, oracles[i]).Ok?
  {
    seq(|oracles|, i requires 0 <= i < |oracles| => CompileOracle(lib, oracles[i]).value)
  }

  function AllChecks(lib: Library, spec: Spec): (checks: seq<CommandCheck>)
    requires forall i :: 0 <= i < |spec.oracles| ==> CompileOracle(lib, spec.oracles[i]).Ok?
    ensures |checks| == |spec.checks| + |spec.oracles|
    ensures forall i :: 0 <= i < |spec.oracles| ==>
              checks[|spec.checks| + i] == CompileOracle(lib, spec.oracles[i]).value
  {
    spec.checks + CompiledOracles(lib, spec.oracles)
  }

  function AllMutations(spec: Spec): (all: seq<Mutation>)
    ensures spec.autoMutate ==> |all| == |spec.mutations| + |spec.oracles|
    ensures spec.autoMutate ==> forall i :: 0 <= i < |spec.oracles| ==>
              all[|spec.mutations| + i] == Generated(spec.oracles[i])
    ensures !spec.autoMutate ==> all == spec.mutations
  {
    if spec.autoMutate then
      spec.mutations + seq(|spec.oracles|, i requires 0 <= i < |spec.oracles| => Generated(spec.oracles[i]))
    else spec.mutations
  }

  /** `CompilerSpec.checks_and_mutations_must_be_consistent`. */
  ghost predicate ValidSpec(lib: Library, spec: Spec) {
    && (forall i :: 0 <= i < |spec.oracles| ==>
          ValidTemplate(spec.oracles[i]) && CompileOracle(lib, spec.oracles[i]).Ok?)
    && (forall i :: 0 <= i < |spec.checks| ==> ValidCheck(spec.checks[i]))
    && var checks, mutations := AllChecks(lib, spec), AllMutations(spec);
       && 1 <= |checks| <= spec.maxCommands
       && (forall i, j :: 0 <= i < j < |checks| ==> checks[i].id != checks[j].id)
       && |mutations| <= MAX_MUTATIONS
       && (forall i, j :: 0 <= i < j < |mutations| ==> mutations[i].id != mutations[j].id)
       && (forall i, name :: 0 <= i < |spec.checks| && name in spec.checks[i].env ==> !ReservedCheckEnv(name))
       && forall i, id :: 0 <= i < |mutations| && id in mutations[i].checkIds ==>
            exists j :: 0 <= j < |checks| && checks[j].id == id
  }

  /** The core of a proposal that verification reads. */
  datatype Proposal = Proposal(
    proposalId: string, capsuleId: string, checks: seq<CommandCheck>, mutations: seq<Mutation>)

  function CompileProposal(lib: Library, spec: Spec, proposalId: string): Proposal
    requires ValidSpec(lib, spec)
  {
    Proposal(proposalId, spec.id, AllChecks(lib, spec), AllMutations(spec))
  }

  predicate Targets(mutation: Mutation, id: string) {
    mutation.checkIds == [] || id in mutation.checkIds
  }

  /** The environment a mutation injects, marker variables last. */
  function Injected(proposalId: string, mutation: Mutation): map<string, string> {
    mutation.env[MUTATION_ID_ENV := mutation.id][PROPOSAL_ID_ENV := proposalId]
  }

  function MutatedCheck(p: Proposal, mutation: Mutation, check: CommandCheck): CommandCheck {
    if Targets(mutation, check.id) then check.(env := check.env + Injected(p.proposalId, mutation)) else check
  }

  predicate Binds(env: map<string, string>, name: string, value: string) {
    name in env && env[name] == value
  }

  /**
   * What mutation does to a check. A mutation without check ids is about every check, any other about
   * the named ones; those get its variables over their own, with the two markers over everything.
   */
  ghost predicate Mutates(proposalId: string, mutation: Mutation, check: CommandCheck, mutated: CommandCheck) {
    if mutation.checkIds != [] && check.id !in mutation.checkIds then mutated == check
    else
      && mutated == check.(env := mutated.env)
      && Binds(mutated.env, "E2H_MUTATION_ID", mutation.id) && Binds(mutated.env, "E2H_PROPOSAL_ID", proposalId)
      && forall name, value :: name != "E2H_MUTATION_ID" && name != "E2H_PROPOSAL_ID" ==>
           (Binds(mutated.env, name, value) <==>
              if name in mutation.env then mutation.env[name] == value else Binds(check.env, name, value))
  }

  lemma {:induction false} MutatedCheckMutates(p: Proposal, mutation: Mutation, check: CommandCheck)
    ensures Mutates(p.proposalId, mutation, check, MutatedCheck(p, mutation, check))
  {
    MarkersDiffer();
  }

  /** `_mutated_capsule`: the loop that rewrites `check.env` of a deep copy. */
  method MutatedChecks(p: Proposal, mutation: Mutation) returns (checks: seq<CommandCheck>)
    ensures |checks| == |p.checks|
    ensures forall i :: 0 <= i < |checks| ==> checks[i] == MutatedCheck(p, mutation, p.checks[i])
    ensures forall i :: 0 <= i < |checks| ==> Mutates(p.proposalId, mutation, p.checks[i], checks[i])
  {
    forall i | 0 <= i < |p.checks|
      ensures Mutates(p.proposalId, mutation, p.checks[i], MutatedCheck(p, mutation, p.checks[i]))
    {
      MutatedCheckMutates(p, mutation, p.checks[i]);
    }
    checks := p.checks;
    var injected := Injected(p.proposalId, mutation);
    for i := 0 to |checks|
      invariant |checks| == |p.checks|
      invariant forall j :: 0 <= j < i ==> checks[j] == MutatedCheck(p, mutation, p.checks[j])
      invariant forall j :: i <= j < |checks| ==> checks[j] == p.checks[j]
    {
      if Targets(mutation, checks[i].id) {
        checks := checks[i := checks[i].(env := checks[i].env + injected)];
      }
    }
  }

  // ---- verification -------------------------------------------------------------------------------

  datatype MutationResult = MutationResult(mutationId: string, detected: bool, result: R.RunResult)

  datatype Report = Report(
    proposalId: string, capsuleSha256: string, planSha256: string, baseline: R.RunResult,
    mutations: seq<MutationResult>, baselinePassed: bool, allDetected: bool, strong: bool)

  predicate AllDetected(results: seq<MutationResult>) {
    results != [] && forall i :: 0 <= i < |results| ==> results[i].detected
  }

  /** `VerificationReport.summary_fields_must_match_results`. */
  predicate ValidReport(r: Report) {
    && (r.baselinePassed <==> r.baseline.status == R.RunPassed)
    && (r.allDetected <==> AllDetected(r.mutations))
    && (r.strong <==> r.baselinePassed && r.allDetected)
  }

  datatype Digests = Digests(capsule: (string, seq<CommandCheck>) -> string, plan: seq<Mutation> -> string)

  /** A run of some checks that completed, whatever the host did. */
  ghost predicate RanAs(run: R.RunResult, capsuleId: string, checks: seq<CommandCheck>, attempts: seq<R.Attempt>) {
    && |attempts| == |checks|
    && exists at :: R.HaltsAt(checks, attempts, at) && R.Describes(run, capsuleId, checks, attempts, at)
  }

  /** The checks of one run: the plain capsule first, then one mutated capsule a mutation. */
  function ChecksOfRun(p: Proposal, run: nat): seq<CommandCheck>
    requires run <= |p.mutations|
  {
    if run == 0 then p.checks
    else seq(|p.checks|, i requires 0 <= i < |p.checks| => MutatedCheck(p, p.mutations[run - 1], p.checks[i]))
  }

  ghost predicate HostFits(p: Proposal, host: seq<seq<R.Attempt>>) {
    |host| == |p.mutations| + 1 && forall r :: 0 <= r < |host| ==> |host[r]| == |p.checks|
  }

  /** What a report says about the runs behind it. */
  ghost predicate ReportsOn(report: Report, p: Proposal, digests: Digests, host: seq<seq<R.Attempt>>) {
    && HostFits(p, host) && ValidReport(report)
    && report.proposalId == p.proposalId
    && report.capsuleSha256 == digests.capsule(p.capsuleId, p.checks)
    && report.planSha256 == digests.plan(p.mutations)
    && RanAs(report.baseline, p.capsuleId, ChecksOfRun(p, 0), host[0])
    && |report.mutations| == |p.mutations| && ResultsOf(report.mutations, p, host)
  }

  ghost predicate ResultOf(result: MutationResult, p: Proposal, i: nat, host: seq<seq<R.Attempt>>)
    requires HostFits(p, host) && i < |p.mutations|
  {
    && result.mutationId == p.mutations[i].id
    && (result.detected <==> result.result.status != R.RunPassed)
    && RanAs(result.result, p.capsuleId, ChecksOfRun(p, i + 1), host[i + 1])
  }

  /** No attempt makes the runner give up. */
  ghost predicate Judgeable(checks: seq<CommandCheck>, attempts: seq<R.Attempt>)
    requires |attempts| == |checks|
  {
    forall i :: 0 <= i < |checks| ==> R.Judge(checks[i], attempts[i]).Ok?
  }

  method RunCapsule(capsuleId: string, checks: seq<CommandCheck>, attempts: seq<R.Attempt>)
    returns (run: Result<R.RunResult, R.RunnerError>)
    requires |attempts| == |checks|
    requires forall i, j :: 0 <= i < j < |checks| ==> checks[i].id != checks[j].id
    ensures run.Ok? ==> RanAs(run.value, capsuleId, checks, attempts)
    ensures Judgeable(checks, attempts) ==> run.Ok?
  {
    run := R.RunChecks(capsuleId, checks, attempts);
  }

  /** One iteration of the mutation loop. */
  method RunMutation(
    p: Proposal, i: nat, host: seq<seq<R.Attempt>>) returns (outcome: Result<MutationResult, R.RunnerError>)
    requires HostFits(p, host) && i < |p.mutations|
    requires forall i, j :: 0 <= i < j < |p.checks| ==> p.checks[i].id != p.checks[j].id
    ensures outcome.Ok? ==> ResultOf(outcome.value, p, i, host)
    ensures Judgeable(ChecksOfRun(p, i + 1), host[i + 1]) ==> outcome.Ok?
  {
    var mutated := MutatedChecks(p, p.mutations[i]);
    assert mutated == ChecksOfRun(p, i + 1);
    var ran := RunCapsule(p.capsuleId, mutated, host[i + 1]);
    outcome := match ran
      case Err(e) => Err(e)
      case Ok(run) => Ok(MutationResult(p.mutations[i].id, run.status != R.RunPassed, run));
  }

  ghost predicate ResultsOf(results: seq<MutationResult>, p: Proposal, host: seq<seq<R.Attempt>>)
    requires HostFits(p, host)
  {
    |results| <= |p.mutations| && forall i :: 0 <= i < |results| ==> ResultOf(results[i], p, i, host)
  }

  lemma {:induction false} ResultsGrow(
    results: seq<MutationResult>, next: MutationResult, p: Proposal, host: seq<seq<R.Attempt>>)
    requires HostFits(p, host) && ResultsOf(results, p, host)
    requires |results| < |p.mutations| && ResultOf(next, p, |results|, host)
    ensures ResultsOf(results + [next], p, host)
  {
  }

  /** The mutation loop. */
  method RunMutations(
    p: Proposal, host: seq<seq<R.Attempt>>) returns (outcome: Result<seq<MutationResult>, R.RunnerError>)
    requires HostFits(p, host)
    requires forall i, j :: 0 <= i < j < |p.checks| ==> p.checks[i].id != p.checks[j].id
    ensures outcome.Ok? ==> |outcome.value| == |p.mutations| && ResultsOf(outcome.value, p, host)
    ensures (forall r :: 0 < r < |host| ==> Judgeable(ChecksOfRun(p, r), host[r])) ==> outcome.Ok?
  {
    var results: seq<MutationResult> := [];
    for i := 0 to |p.mutations|
      invariant |results| == i && ResultsOf(results, p, host)
    {
      var result := RunMutation(p, i, host);
      if result.Err? {
        return Err(result.error);
      }
      ResultsGrow(results, result.value, p, host);
      results := results + [result.value];
    }
    return Ok(results);
  }

  /** `verify_proposal`; `host` holds what every check of every run would do if attempted. */
  method VerifyProposal(p: Proposal, digests: Digests, host: seq<seq<R.Attempt>>)
    returns (outcome: Result<Report, R.RunnerError>)
    requires HostFits(p, host)
    requires forall i, j :: 0 <= i < j < |p.checks| ==> p.checks[i].id != p.checks[j].id
    ensures outcome.Ok? ==> ReportsOn(outcome.value, p, digests, host)
    ensures (forall r :: 0 <= r < |host| ==> Judgeable(ChecksOfRun(p, r), host[r])) ==> outcome.Ok?
  {
    var baseline := RunCapsule(p.capsuleId, p.checks, host[0]);
    if baseline.Err? {
      return Err(baseline.error);
    }
    var results := RunMutations(p, host);
    if results.Err? {
      return Err(results.error);
    }
    var passed := baseline.value.status == R.RunPassed;
    var detected := AllDetected(results.value);
    outcome := Ok(Report(p.proposalId, digests.capsule(p.capsuleId, p.checks), digests.plan(p.mutations),
                         baseline.value, results.value, passed, detected, passed && detected));
  }

  // ---- a fixed workspace and an honest host -------------------------------------------------------

  /** `{**os.environ, **check.env}.get(MUTATION_ENV)`. */
  function OperatorSeen(ambient: map<string, string>, env: map<string, string>): Option<string> {
    if MUTATION_ENV in env then Some(env[MUTATION_ENV])
    else if MUTATION_ENV in ambient then Some(ambient[MUTATION_ENV])
    else None
  }

  predicate IsOracleCommand(check: CommandCheck) {
    |check.argv| == 4 && check.argv[..3] == ORACLE_ARGV
  }

  /**
   * An oracle command that runs to completion exits as `oracle_cli` says. Every other check, and
   * every timeout, launch error or lost output, is left arbitrary and may differ between runs.
   */
  ghost predicate Honest(
    lib: Library, files: Files, ambient: map<string, string>, check: CommandCheck, attempt: R.Attempt)
    requires YieldsValid(lib)
  {
    IsOracleCommand(check) && attempt.Completed? && !attempt.outcome.timedOut && !attempt.outcome.captureError
      && attempt.outcome.exitCode.Some?
    ==> attempt.outcome.exitCode.value == OracleMain(lib, check.argv[3], OperatorSeen(ambient, check.env), files)
  }

  ghost predicate HonestHost(
    lib: Library, files: Files, ambient: map<string, string>, p: Proposal, host: seq<seq<R.Attempt>>)
    requires YieldsValid(lib)
  {
    HostFits(p, host) &&
    forall r, i :: 0 <= r < |host| && 0 <= i < |p.checks| ==>
      Honest(lib, files, ambient, ChecksOfRun(p, r)[i], host[r][i])
  }

  /** In a passing run no check is skipped and each one passed its own attempt. */
  lemma {:induction false} PassingRunPassesEach(
    run: R.RunResult, capsuleId: string, checks: seq<CommandCheck>, attempts: seq<R.Attempt>, i: nat)
    requires RanAs(run, capsuleId, checks, attempts) && run.status == R.RunPassed && i < |checks|
    ensures R.Judge(checks[i], attempts[i]).Ok? && R.Judge(checks[i], attempts[i]).value.status == R.Passed
  {
    var at :| R.HaltsAt(checks, attempts, at) && R.Describes(run, capsuleId, checks, attempts, at);
    R.FollowsValid(run.checks, checks, attempts, at);
    assert run.checks[i].status == R.Passed;
  }

  /** Passing means that the oracle was satisfied under the operator the command saw. */
  lemma {:induction false} PassingOracleCommand(
    lib: Library, files: Files, ambient: map<string, string>, t: Template, check: CommandCheck, attempt: R.Attempt)
    requires YieldsValid(lib) && RoundTrips(lib, t)
    requires check.argv == ORACLE_ARGV + [lib.render(t)] && check.expectedExitCodes == {0}
    requires Honest(lib, files, ambient, check, attempt)
    requires R.Judge(check, attempt).Ok? && R.Judge(check, attempt).value.status == R.Passed
    ensures EvaluateOracle(lib, t, OperatorSeen(ambient, check.env), files).passed
  {
    assert check.argv[..3] == ORACLE_ARGV && check.argv[3] == lib.render(t);
  }

  /** A passing run satisfied the oracle behind each oracle check, under the operator that check saw. */
  lemma {:induction false} PassingRunSatisfiesOracle(
    lib: Library, files: Files, ambient: map<string, string>, t: Template, run: R.RunResult, capsuleId: string,
    checks: seq<CommandCheck>, attempts: seq<R.Attempt>, c: nat)
    requires YieldsValid(lib) && RoundTrips(lib, t)
    requires RanAs(run, capsuleId, checks, attempts) && run.status == R.RunPassed && c < |checks|
    requires checks[c].argv == ORACLE_ARGV + [lib.render(t)] && checks[c].expectedExitCodes == {0}
    requires Honest(lib, files, ambient, checks[c], attempts[c])
    ensures EvaluateOracle(lib, t, OperatorSeen(ambient, checks[c].env), files).passed
  {
    PassingRunPassesEach(run, capsuleId, checks, attempts, c);
    PassingOracleCommand(lib, files, ambient, t, checks[c], attempts[c]);
  }

  /** Two oracle checks with one command, of which only the second is told to mutate. */
  predicate IsMutant(
    lib: Library, ambient: map<string, string>, t: Template, plain: CommandCheck, mutated: CommandCheck)
  {
    && plain.argv == mutated.argv == ORACLE_ARGV + [lib.render(t)]
    && plain.expectedExitCodes == mutated.expectedExitCodes == {0}
    && plain.env == map[]
    && OperatorSeen(ambient, mutated.env) == Some(OperatorOf(t))
  }

  /** The check of oracle k in the plain run and in its own mutated run. */
  lemma {:induction false} OracleCheckInRuns(
    lib: Library, ambient: map<string, string>, spec: Spec, proposalId: string, k: nat)
    requires ValidSpec(lib, spec) && spec.autoMutate && k < |spec.oracles|
    ensures var p := CompileProposal(lib, spec, proposalId);
            var t, c, m := spec.oracles[k], |spec.checks| + k, PlaceOf(spec, k);
            && c < |p.checks| && m < |p.mutations| && ValidTemplate(t)
            && IsMutant(lib, ambient, t, ChecksOfRun(p, 0)[c], ChecksOfRun(p, m + 1)[c])
  {
    var p := CompileProposal(lib, spec, proposalId);
    var t, c, m := spec.oracles[k], |spec.checks| + k, PlaceOf(spec, k);
    assert p.mutations[m] == Generated(t);
    assert ChecksOfRun(p, m + 1)[c] == MutatedCheck(p, Generated(t), p.checks[c]);
    MutatedOracleSees(p, t, p.checks[c], ambient);
  }

  /**
   * Every generated oracle mutation is detected once the baseline passed: no hand-written check,
   * timeout or launch failure can hide it, as long as the oracle's file does not change.
   */
  lemma {:induction false} GeneratedMutationIsDetected(
    lib: Library, files: Files, ambient: map<string, string>, spec: Spec, proposalId: string, digests: Digests,
    host: seq<seq<R.Attempt>>, report: Report, k: nat)
    requires YieldsValid(lib) && ValidSpec(lib, spec) && spec.autoMutate && k < |spec.oracles|
    requires RoundTrips(lib, spec.oracles[k])
    requires var p := CompileProposal(lib, spec, proposalId);
             ReportsOn(report, p, digests, host) && HonestHost(lib, files, ambient, p, host)
    requires MUTATION_ENV !in ambient && !HashesToZeros(lib, spec.oracles[k], files)
    requires report.baselinePassed
    ensures |report.mutations| == |spec.mutations| + |spec.oracles|
    ensures report.mutations[PlaceOf(spec, k)].detected
  {
    var p := CompileProposal(lib, spec, proposalId);
    ReportSize(report, p, digests, host);
    OracleCheckInRuns(lib, ambient, spec, proposalId, k);
    DetectedInRuns(lib, files, ambient, spec.oracles[k], p, digests, host, report, |spec.checks| + k, PlaceOf(spec, k));
  }

  lemma {:induction false} ReportSize(report: Report, p: Proposal, digests: Digests, host: seq<seq<R.Attempt>>)
    requires ReportsOn(report, p, digests, host)
    ensures |report.mutations| == |p.mutations|
  {
  }

  /** Generated mutations follow the hand-written ones. */
  function PlaceOf(spec: Spec, k: nat): nat {
    |spec.mutations| + k
  }

  lemma {:induction false} DetectedInRuns(
    lib: Library, files: Files, ambient: map<string, string>, t: Template, p: Proposal, digests: Digests,
    host: seq<seq<R.Attempt>>, report: Report, c: nat, m: nat)
    requires YieldsValid(lib) && RoundTrips(lib, t) && c < |p.checks| && m < |p.mutations|
    requires ReportsOn(report, p, digests, host) && HonestHost(lib, files, ambient, p, host)
    requires MUTATION_ENV !in ambient && !HashesToZeros(lib, t, files) && report.baselinePassed
    requires IsMutant(lib, ambient, t, ChecksOfRun(p, 0)[c], ChecksOfRun(p, m + 1)[c])
    ensures report.mutations[m].detected
  {
    assert Honest(lib, files, ambient, ChecksOfRun(p, 0)[c], host[0][c]);
    PassingRunSatisfiesOracle(lib, files, ambient, t, report.baseline, p.capsuleId, ChecksOfRun(p, 0), host[0], c);
    OwnMutationIsCaught(lib, t, files);
    var mutant := report.mutations[m];
    assert ResultOf(mutant, p, m, host);
    if mutant.result.status == R.RunPassed {
      assert Honest(lib, files, ambient, ChecksOfRun(p, m + 1)[c], host[m + 1][c]);
      PassingRunSatisfiesOracle(
        lib, files, ambient, t, mutant.result, p.capsuleId, ChecksOfRun(p, m + 1), host[m + 1], c);
    }
  }

  /** The mutated oracle check keeps its command and sees its own operator. */
  lemma {:induction false} MutatedOracleSees(
    p: Proposal, t: Template, plain: CommandCheck, ambient: map<string, string>)
    requires plain.id == t.id
    ensures var mutated := MutatedCheck(p, Generated(t), plain);
            && mutated.argv == plain.argv && mutated.expectedExitCodes == plain.expectedExitCodes
            && OperatorSeen(ambient, mutated.env) == Some(OperatorOf(t))
  {
    MarkersDiffer();
    assert t.id in Generated(t).checkIds;
  }

  lemma {:induction false} MarkersDiffer()
    ensures MUTATION_ENV != MUTATION_ID_ENV && MUTATION_ENV != PROPOSAL_ID_ENV && MUTATION_ID_ENV != PROPOSAL_ID_ENV
  {
    assert |MUTATION_ENV| == 19 && |MUTATION_ID_ENV| == 15 && |PROPOSAL_ID_ENV| == 15;
    assert MUTATION_ID_ENV[4] == 'M' && PROPOSAL_ID_ENV[4] == 'P';
  }

  /** An oracle-only specification with automatic mutation verifies strongly whenever its baseline passes. */
  lemma {:induction false} OracleOnlySpecIsStrong(
    lib: Library, files: Files, ambient: map<string, string>, spec: Spec, proposalId: string, digests: Digests,
    host: seq<seq<R.Attempt>>, report: Report)
    requires YieldsValid(lib) && ValidSpec(lib, spec) && spec.autoMutate
    requires forall k :: 0 <= k < |spec.oracles| ==> RoundTrips(lib, spec.oracles[k])
    requires spec.checks == [] && spec.mutations == []
    requires var p := CompileProposal(lib, spec, proposalId);
             ReportsOn(report, p, digests, host) && HonestHost(lib, files, ambient, p, host)
    requires MUTATION_ENV !in ambient
    requires forall k :: 0 <= k < |spec.oracles| ==> !HashesToZeros(lib, spec.oracles[k], files)
    ensures report.strong <==> report.baseline.status == R.RunPassed
  {
    if report.baselinePassed {
      forall k | 0 <= k < |spec.oracles| ensures report.mutations[k].detected {
        GeneratedMutationIsDetected(lib, files, ambient, spec, proposalId, digests, host, report, k);
        assert PlaceOf(spec, k) == k;
      }
      assert |report.mutations| == |spec.oracles| && |AllChecks(lib, spec)| == |spec.oracles|;
      assert AllDetected(report.mutations);
    }
  }

  /** A command that completes and exits as the oracle decides. */
  ghost function OracleAttempt(lib: Library, files: Files, ambient: map<string, string>, check: CommandCheck): R.Attempt
    requires YieldsValid(lib)
  {
    var payload := if |check.argv| == 4 then check.argv[3] else "";
    R.Completed(R.Outcome(Some(OracleMain(lib, payload, OperatorSeen(ambient, check.env), files)), false, false, None))
  }

  ghost function OracleAttempts(
    lib: Library, files: Files, ambient: map<string, string>, checks: seq<CommandCheck>): (attempts: seq<R.Attempt>)
    requires YieldsValid(lib)
    ensures |attempts| == |checks|
  {
    seq(|checks|, i requires 0 <= i < |checks| => OracleAttempt(lib, files, ambient, checks[i]))
  }

  /** A host on which every command of every run does so. */
  ghost function OracleHost(
    lib: Library, files: Files, ambient: map<string, string>, p: Proposal): (host: seq<seq<R.Attempt>>)
    requires YieldsValid(lib)
    ensures HostFits(p, host)
    ensures forall r :: 0 <= r < |host| ==> host[r] == OracleAttempts(lib, files, ambient, ChecksOfRun(p, r))
  {
    seq(|p.mutations| + 1,
        r requires 0 <= r <= |p.mutations| => OracleAttempts(lib, files, ambient, ChecksOfRun(p, r)))
  }

  /** Verification on such a host never gives up, and the host is honest. */
  lemma {:induction false} OracleHostIsHonest(lib: Library, files: Files, ambient: map<string, string>, p: Proposal)
    requires YieldsValid(lib)
    ensures var host := OracleHost(lib, files, ambient, p);
            && HonestHost(lib, files, ambient, p, host)
            && forall r :: 0 <= r < |host| ==> Judgeable(ChecksOfRun(p, r), host[r])
  {
  }

  lemma {:induction false} PassedAttemptsMakeAPassedRun(
    run: R.RunResult, capsuleId: string, checks: seq<CommandCheck>, attempts: seq<R.Attempt>)
    requires RanAs(run, capsuleId, checks, attempts)
    requires forall i :: 0 <= i < |checks| ==>
               R.Judge(checks[i], attempts[i]).Ok? && R.Judge(checks[i], attempts[i]).value.status == R.Passed
    ensures run.status == R.RunPassed
  {
    var at :| R.HaltsAt(checks, attempts, at) && R.Describes(run, capsuleId, checks, attempts, at);
    assert at == |checks|;
    R.FollowsValid(run.checks, checks, attempts, at);
    forall i | 0 <= i < |run.checks| ensures run.checks[i].status == R.Passed && run.checks[i].failure == None {
      assert R.Judge(checks[i], attempts[i]) == Ok(run.checks[i]);
    }
  }

  lemma {:induction false} PassingOracleIsJudgedPassed(
    lib: Library, files: Files, ambient: map<string, string>, t: Template, check: CommandCheck)
    requires YieldsValid(lib) && RoundTrips(lib, t) && MUTATION_ENV !in ambient && check.env == map[]
    requires check.argv == ORACLE_ARGV + [lib.render(t)] && check.expectedExitCodes == {0}
    requires EvaluateOracle(lib, t, None, files).passed
    ensures R.Judge(check, OracleAttempt(lib, files, ambient, check))
            == Ok(R.CommandResult(check.id, R.Passed, Some(0), None))
  {
    assert |check.argv| == 4 && check.argv[3] == lib.render(t);
  }

  /** Where each oracle passes unmutated, verification of an oracle-only specification is strong. */
  lemma {:induction false} PassingOraclesVerifyStrongly(
    lib: Library, files: Files, ambient: map<string, string>, spec: Spec, proposalId: string, digests: Digests,
    report: Report)
    requires YieldsValid(lib) && ValidSpec(lib, spec) && spec.autoMutate
    requires forall k :: 0 <= k < |spec.oracles| ==> RoundTrips(lib, spec.oracles[k])
    requires spec.checks == [] && spec.mutations == [] && MUTATION_ENV !in ambient
    requires var p := CompileProposal(lib, spec, proposalId);
             ReportsOn(report, p, digests, OracleHost(lib, files, ambient, p))
    requires forall k :: 0 <= k < |spec.oracles| ==> !HashesToZeros(lib, spec.oracles[k], files)
    requires forall k :: 0 <= k < |spec.oracles| ==> EvaluateOracle(lib, spec.oracles[k], None, files).passed
    ensures report.strong
  {
    var p := CompileProposal(lib, spec, proposalId);
    var host := OracleHost(lib, files, ambient, p);
    OracleHostIsHonest(lib, files, ambient, p);
    forall k | 0 <= k < |p.checks|
      ensures R.Judge(p.checks[k], host[0][k]).Ok? && R.Judge(p.checks[k], host[0][k]).value.status == R.Passed
    {
      OracleCheckInRuns(lib, ambient, spec, proposalId, k);
      PassingOracleIsJudgedPassed(lib, files, ambient, spec.oracles[k], p.checks[k]);
    }
    PassedAttemptsMakeAPassedRun(report.baseline, p.capsuleId, p.checks, host[0]);
    OracleOnlySpecIsStrong(lib, files, ambient, spec, proposalId, digests, host, report);
  }

  /** In such a run the baseline passes exactly when every oracle does. */
  lemma {:induction false} StrongIffOraclesEvaluate(
    lib: Library, files: Files, ambient: map<string, string>, spec: Spec, proposalId: string, digests: Digests,
    report: Report)
    requires YieldsValid(lib) && ValidSpec(lib, spec) && spec.autoMutate
    requires forall k :: 0 <= k < |spec.oracles| ==> RoundTrips(lib, spec.oracles[k])
    requires spec.checks == [] && spec.mutations == [] && MUTATION_ENV !in ambient
    requires var p := CompileProposal(lib, spec, proposalId);
             ReportsOn(report, p, digests, OracleHost(lib, files, ambient, p))
    requires forall k :: 0 <= k < |spec.oracles| ==> !HashesToZeros(lib, spec.oracles[k], files)
    ensures report.strong <==>
              forall k :: 0 <= k < |spec.oracles| ==> EvaluateOracle(lib, spec.oracles[k], None, files).passed
  {
    if report.strong {
      var p := CompileProposal(lib, spec, proposalId);
      var host := OracleHost(lib, files, ambient, p);
      OracleHostIsHonest(lib, files, ambient, p);
      forall k | 0 <= k < |spec.oracles| ensures EvaluateOracle(lib, spec.oracles[k], None, files).passed {
        OracleCheckInRuns(lib, ambient, spec, proposalId, k);
        assert Honest(lib, files, ambient, ChecksOfRun(p, 0)[k], host[0][k]);
        PassingRunSatisfiesOracle(
          lib, files, ambient, spec.oracles[k], report.baseline, p.capsuleId, ChecksOfRun(p, 0), host[0], k);
      }
    } else if forall k :: 0 <= k < |spec.oracles| ==> EvaluateOracle(lib, spec.oracles[k], None, files).passed {
      PassingOraclesVerifyStrongly(lib, files, ambient, spec, proposalId, digests, report);
    }
  }

  /** The entry at the template's path is what the template asks for. */
  ghost predicate SatisfiedIn(lib: Library, t: Template, files: Files) {
    OracleMeaning.Satisfied(lib, t, files(t.cwd, t.path))
  }

  /** On such a host strong verification is exactly that the workspace satisfies every oracle. */
  lemma {:induction false} StrongIffOraclesPass(
    lib: Library, files: Files, ambient: map<string, string>, spec: Spec, proposalId: string, digests: Digests,
    report: Report)
    requires YieldsValid(lib) && ValidSpec(lib, spec) && spec.autoMutate
    requires forall k :: 0 <= k < |spec.oracles| ==> RoundTrips(lib, spec.oracles[k])
    requires spec.checks == [] && spec.mutations == [] && MUTATION_ENV !in ambient
    requires var p := CompileProposal(lib, spec, proposalId);
             ReportsOn(report, p, digests, OracleHost(lib, files, ambient, p))
    requires forall k :: 0 <= k < |spec.oracles| ==> !HashesToZeros(lib, spec.oracles[k], files)
    ensures report.strong <==> forall k :: 0 <= k < |spec.oracles| ==> SatisfiedIn(lib, spec.oracles[k], files)
  {
    StrongIffOraclesEvaluate(lib, files, ambient, spec, proposalId, digests, report);
    forall k | 0 <= k < |spec.oracles|
      ensures EvaluateOracle(lib, spec.oracles[k], None, files).passed <==> SatisfiedIn(lib, spec.oracles[k], files)
    {
      OracleMeaning.PassesIff(lib, spec.oracles[k], files);
    }
  }

  /** The assumptions on library, specification and files can be met together. */
  lemma {:induction false} AssumptionsCanBeMet(text: string)
    ensures var t := FileOracle("o", "f", Exists, None, "");
            var lib := Library(_ => ONES, _ => Some(text), _ => None, _ => "p",
                s => if s == "p" then Some(t) else None, _ => 0);
            var spec := Spec("s", [], [t], true, [], 1);
            var files: Files := (_, _) => Regular([]);
            && YieldsValid(lib) && ValidSpec(lib, spec) && RoundTrips(lib, t)
            && EvaluateOracle(lib, t, None, files).passed && !HashesToZeros(lib, t, files)
  {
    ZerosAreNotOnes();
    assert Split("f", '/') == ["f"] && Split("", '/') == [""];
    var t := FileOracle("o", "f", Exists, None, "");
    assert Generated(t).checkIds[0] == "o";
  }

  /**
   * Why the ambient environment must not define the mutation variable: an oracle that passes is
   * caught by its generated mutation exactly when the variable is absent from the environment.
   */
  lemma {:induction false} CaughtIffAmbientIsClean(
    lib: Library, files: Files, ambient: map<string, string>, t: Template)
    requires ValidTemplate(t) && !HashesToZeros(lib, t, files)
    requires EvaluateOracle(lib, t, OperatorSeen(ambient, map[]), files).passed
    ensures EvaluateOracle(lib, t, Some(OperatorOf(t)), files).passed <==> MUTATION_ENV in ambient
  {
    if MUTATION_ENV in ambient {
      if ambient[MUTATION_ENV] != OperatorOf(t) {
        ForeignOperatorFails(lib, t, files, ambient[MUTATION_ENV]);
      }
    } else {
      OwnMutationIsCaught(lib, t, files);
    }
  }

  // ---- review and release ---------------------------------------------------------------------------

  datatype Decision = Approve | Reject

  datatype Reviewed = Reviewed(core: Proposal, reviews: seq<Decision>)

  /** Reviews are only ever appended; the last one counts. */
  predicate Approved(p: Reviewed) {
    p.reviews != [] && p.reviews[|p.reviews| - 1] == Approve
  }

  datatype ReleaseError =
    | OtherProposal | OtherCapsule | OtherPlan | OtherMutations | ForeignResult | NotApproved | NotStrong

  function Ids(mutations: seq<Mutation>): seq<string> {
    seq(|mutations|, i requires 0 <= i < |mutations| => mutations[i].id)
  }

  function ResultIds(results: seq<MutationResult>): seq<string> {
    seq(|results|, i requires 0 <= i < |results| => results[i].mutationId)
  }

  /** `materialize_capsule`, with the error of the first gate that fails. */
  function Materialize(p: Reviewed, report: Report, digests: Digests, requireApproved: bool, requireStrong: bool)
    : Result<seq<CommandCheck>, ReleaseError>
  {
    if report.proposalId != p.core.proposalId then Err(OtherProposal)
    else if report.capsuleSha256 != digests.capsule(p.core.capsuleId, p.core.checks) then Err(OtherCapsule)
    else if report.planSha256 != digests.plan(p.core.mutations) then Err(OtherPlan)
    else if ResultIds(report.mutations) != Ids(p.core.mutations) then Err(OtherMutations)
    else if report.baseline.capsuleId != p.core.capsuleId
         || (exists i :: 0 <= i < |report.mutations| && report.mutations[i].result.capsuleId != p.core.capsuleId) then
      Err(ForeignResult)
    else if requireApproved && !Approved(p) then Err(NotApproved)
    else if requireStrong && !report.strong then Err(NotStrong)
    else Ok(p.core.checks)
  }

  /** The digests tell these two proposals' capsules and mutation plans apart. */
  predicate NoCollision(digests: Digests, p: Proposal, q: Proposal) {
    && (digests.capsule(p.capsuleId, p.checks) == digests.capsule(q.capsuleId, q.checks) ==>
          p.capsuleId == q.capsuleId && p.checks == q.checks)
    && (digests.plan(p.mutations) == digests.plan(q.mutations) ==> p.mutations == q.mutations)
  }

  /** A strong report names a mutation, and every mutation in it made its run fail. */
  lemma {:induction false} StrongReport(report: Report, p: Proposal, digests: Digests, host: seq<seq<R.Attempt>>)
    requires ReportsOn(report, p, digests, host) && report.strong
    ensures report.baseline.status == R.RunPassed && |report.mutations| == |p.mutations| && p.mutations != []
    ensures forall i :: 0 <= i < |p.mutations| ==> report.mutations[i].result.status != R.RunPassed
  {
    forall i | 0 <= i < |p.mutations| ensures report.mutations[i].result.status != R.RunPassed {
      assert ResultOf(report.mutations[i], p, i, host);
      assert report.mutations[i].detected;
    }
  }

  /** The guards of the release. */
  lemma {:induction false} ReleasedMeans(p: Reviewed, report: Report, digests: Digests)
    requires Materialize(p, report, digests, true, true).Ok?
    ensures report.proposalId == p.core.proposalId && Approved(p) && report.strong
    ensures report.capsuleSha256 == digests.capsule(p.core.capsuleId, p.core.checks)
    ensures report.planSha256 == digests.plan(p.core.mutations)
    ensures Materialize(p, report, digests, true, true).value == p.core.checks
  {
  }

  /** What the report must say for the capsule to be released, with either requirement switched off or on. */
  lemma {:induction false} ReleasedIff(
    p: Reviewed, report: Report, digests: Digests, requireApproved: bool, requireStrong: bool)
    ensures Materialize(p, report, digests, requireApproved, requireStrong).Ok? <==>
              && report.proposalId == p.core.proposalId
              && report.capsuleSha256 == digests.capsule(p.core.capsuleId, p.core.checks)
              && report.planSha256 == digests.plan(p.core.mutations)
              && report.baseline.capsuleId == p.core.capsuleId
              && |report.mutations| == |p.core.mutations|
              && (forall i :: 0 <= i < |report.mutations| ==>
                    report.mutations[i].mutationId == p.core.mutations[i].id &&
                    report.mutations[i].result.capsuleId == p.core.capsuleId)
              && (requireApproved ==> p.reviews != [] && p.reviews[|p.reviews| - 1] == Approve)
              && (requireStrong ==> report.strong)
  {
    IdsAgreeIff(report.mutations, p.core.mutations);
  }

  lemma {:induction false} IdsAgreeIff(results: seq<MutationResult>, mutations: seq<Mutation>)
    ensures ResultIds(results) == Ids(mutations) <==>
              |results| == |mutations| && forall i :: 0 <= i < |results| ==> results[i].mutationId == mutations[i].id
  {
    if ResultIds(results) == Ids(mutations) {
      assert |ResultIds(results)| == |results| && |Ids(mutations)| == |mutations|;
      forall i | 0 <= i < |results| ensures results[i].mutationId == mutations[i].id {
        assert ResultIds(results)[i] == Ids(mutations)[i];
      }
    }
  }

  /** A report that names both by these digests reports on this proposal. */
  lemma {:induction false} DigestsNameTheProposal(
    p: Proposal, verified: Proposal, report: Report, digests: Digests, host: seq<seq<R.Attempt>>)
    requires NoCollision(digests, p, verified) && ReportsOn(report, verified, digests, host)
    requires report.proposalId == p.proposalId
    requires report.capsuleSha256 == digests.capsule(p.capsuleId, p.checks)
    requires report.planSha256 == digests.plan(p.mutations)
    ensures verified == p
  {
  }

  /**
   * A capsule released under both requirements is the reviewed one, its last review approves, and
   * the report's runs are those of exactly this capsule and this mutation plan.
   */
  lemma {:induction false} ReleaseIsEarned(
    p: Reviewed, verified: Proposal, report: Report, digests: Digests, host: seq<seq<R.Attempt>>)
    requires NoCollision(digests, p.core, verified)
    requires ReportsOn(report, verified, digests, host)
    requires Materialize(p, report, digests, true, true).Ok?
    ensures verified == p.core && Materialize(p, report, digests, true, true).value == p.core.checks
    ensures p.reviews != [] && p.reviews[|p.reviews| - 1] == Approve
    ensures report.baseline.status == R.RunPassed && p.core.mutations != []
    ensures |report.mutations| == |p.core.mutations|
    ensures forall i :: 0 <= i < |p.core.mutations| ==> report.mutations[i].result.status != R.RunPassed
  {
    ReleasedMeans(p, report, digests);
    DigestsNameTheProposal(p.core, verified, report, digests, host);
    StrongReport(report, verified, digests, host);
  }

  lemma {:induction false} ResultCarriesIds(result: MutationResult, p: Proposal, i: nat, host: seq<seq<R.Attempt>>)
    requires HostFits(p, host) && i < |p.mutations| && ResultOf(result, p, i, host)
    ensures result.mutationId == p.mutations[i].id && result.result.capsuleId == p.capsuleId
  {
  }

  /** The results of a report carry the plan's ids, in order, and the capsule's id. */
  lemma {:induction false} ResultsCarryIds(results: seq<MutationResult>, p: Proposal, host: seq<seq<R.Attempt>>)
    requires HostFits(p, host) && |results| == |p.mutations| && ResultsOf(results, p, host)
    ensures ResultIds(results) == Ids(p.mutations)
    ensures forall i :: 0 <= i < |results| ==> results[i].result.capsuleId == p.capsuleId
  {
    forall i | 0 <= i < |results|
      ensures results[i].mutationId == p.mutations[i].id && results[i].result.capsuleId == p.capsuleId
    {
      ResultCarriesIds(results[i], p, i, host);
    }
  }

  /** Past the identity checks only approval and strength are left. */
  lemma {:induction false} OnlyApprovalAndStrength(p: Reviewed, report: Report, digests: Digests)
    requires report.proposalId == p.core.proposalId
    requires report.capsuleSha256 == digests.capsule(p.core.capsuleId, p.core.checks)
    requires report.planSha256 == digests.plan(p.core.mutations)
    requires ResultIds(report.mutations) == Ids(p.core.mutations) && report.baseline.capsuleId == p.core.capsuleId
    requires forall i :: 0 <= i < |report.mutations| ==> report.mutations[i].result.capsuleId == p.core.capsuleId
    ensures Materialize(p, report, digests, true, true) ==
              (if p.reviews == [] || p.reviews[|p.reviews| - 1] != Approve then Err(NotApproved)
               else if !report.strong then Err(NotStrong) else Ok(p.core.checks))
  {
  }

  lemma {:induction false} BaselineCarriesId(report: Report, p: Proposal, digests: Digests, host: seq<seq<R.Attempt>>)
    requires ReportsOn(report, p, digests, host)
    ensures report.baseline.capsuleId == p.capsuleId
  {
  }

  /** A verified, approved and strong proposal is always released; nothing else in the gate can fail. */
  lemma {:induction false} EarnedIsReleased(p: Reviewed, report: Report, digests: Digests, host: seq<seq<R.Attempt>>)
    requires ReportsOn(report, p.core, digests, host)
    ensures Materialize(p, report, digests, true, true) ==
              (if p.reviews == [] || p.reviews[|p.reviews| - 1] != Approve then Err(NotApproved)
               else if !report.strong then Err(NotStrong) else Ok(p.core.checks))
  {
    BaselineCarriesId(report, p.core, digests, host);
    ResultsCarryIds(report.mutations, p.core, host);
    OnlyApprovalAndStrength(p, report, digests);
  }
}
