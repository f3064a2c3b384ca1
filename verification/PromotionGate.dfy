/** Evidence, policy and proposal models of promotion_evidence.py, with their validators. */
module PromotionEvidence {
  import opened Prelude

  datatype Role = Validation | SealedTest

  datatype Variant = Variant(id: string, sha256: string)

  /** The dataset and partition identities a report is bound to. */
  datatype Commitment = Commitment(
    datasetId: string, partitionId: string, publicDataset: string, publicPartition: string)

  datatype ReportFields = Report(
    evidenceId: string, role: Role, commitment: Commitment, baseline: Variant, candidate: Variant,
    total: int, both: int, baselineOnly: int, candidateOnly: int, neither: int,
    baselineScore: real, candidateScore: real)

  datatype Rule = Rule(
    role: Role, minTotal: int, minCandidateScore: real, minImprovement: real,
    minDiscordant: int, maxPValue: real)

  /** Pydantic refuses to build a report its validator rejects, so a report is a checked record. */
  type Report = r: ReportFields | ValidReport(r)
    witness Report("e", Validation, Commitment("d", "p", "", ""), Variant("b", "0"), Variant("c", "1"),
                   1, 0, 0, 0, 1, 0.0, 0.0)

  datatype PolicyFields = Policy(id: string, rules: seq<Rule>)

  type Policy = p: PolicyFields | ValidPolicy(p) witness Policy("p", [Rule(Validation, 1, 0.0, 0.0, 1, 1.0)])

  datatype ProposalFields = Proposal(
    id: string, baseline: Variant, candidate: Variant, evidence: seq<Report>)

  type Proposal = p: ProposalFields | ValidProposal(p)
    witness Proposal("p", Variant("b", "0"), Variant("c", "1"),
      [Report("e", Validation, Commitment("d", "p", "", ""), Variant("b", "0"), Variant("c", "1"),
              1, 0, 0, 0, 1, 0.0, 0.0)])

  predicate Different(a: Variant, b: Variant) {
    a.id != b.id && a.sha256 != b.sha256
  }

  function Ratio(part: int, total: int): real
    requires total > 0
  {
    part as real / total as real
  }

  predicate ValidReport(r: ReportFields) {
    && 1 <= r.total <= 10_000
    && r.both >= 0 && r.baselineOnly >= 0 && r.candidateOnly >= 0 && r.neither >= 0
    && r.both + r.baselineOnly + r.candidateOnly + r.neither == r.total
    && r.baselineScore == Ratio(r.both + r.baselineOnly, r.total)
    && r.candidateScore == Ratio(r.both + r.candidateOnly, r.total)
    && Different(r.baseline, r.candidate)
  }

  predicate ValidRule(rule: Rule) {
    && 1 <= rule.minTotal <= 10_000
    && 0.0 <= rule.minCandidateScore <= 1.0
    && 0.0 <= rule.minImprovement <= 1.0
    && 1 <= rule.minDiscordant <= 10_000
    && 0.0 < rule.maxPValue <= 1.0
  }

  predicate ValidPolicy(policy: PolicyFields) {
    && 1 <= |policy.rules| <= 2
    && (forall rule :: rule in policy.rules ==> ValidRule(rule))
    && forall i, j :: 0 <= i < j < |policy.rules| ==> policy.rules[i].role != policy.rules[j].role
  }

  predicate ValidProposal(p: ProposalFields) {
    && 1 <= |p.evidence| <= 2
    && Different(p.baseline, p.candidate)
    && (forall i :: 0 <= i < |p.evidence| ==>
          p.evidence[i].baseline == p.baseline && p.evidence[i].candidate == p.candidate)
    && (forall i, j :: 0 <= i < j < |p.evidence| ==>
          && p.evidence[i].role != p.evidence[j].role
          && p.evidence[i].evidenceId != p.evidence[j].evidenceId
          && p.evidence[i].commitment == p.evidence[j].commitment)
  }
}

/** The multi-rule gate of promotion_decision_ops.py. */
module PromotionGate {
  import opened Prelude
  import opened PromotionEvidence
  import McNemar

  datatype Reason =
    | TotalBelow(total: int, required: int)
    | NotOutperforming
    | ScoreBelow(score: real, floor: real)
    | ImprovementBelow(improvement: real, floor: real)
    | DiscordantBelow(pairs: int, required: int)
    | PValueAbove(pValue: real, allowed: real)

  datatype Check = Check(
    role: Role, evidenceId: string, evidenceSha256: string, passed: bool, total: int,
    baselineScore: real, candidateScore: real, improvement: real, discordant: int,
    candidateOnly: int, baselineOnly: int, pValue: real, reasons: seq<Reason>)

  datatype GateError = MissingRoles | UnexpectedRoles | BaselineMismatch(role: Role) | CandidateMismatch(role: Role)

  /** `{report.role: report for report in evidence}.get(role)`: the last report of a role wins. */
  function EvidenceFor(evidence: seq<Report>, role: Role): (r: Option<Report>)
    ensures r.Some? ==> r.value in evidence && r.value.role == role
    ensures r.None? ==> forall e :: e in evidence ==> e.role != role
  {
    if evidence == [] then None
    else if evidence[|evidence| - 1].role == role then Some(evidence[|evidence| - 1])
    else EvidenceFor(evidence[..|evidence| - 1], role)
  }

  /** What a rule asks of the four cells, in exact arithmetic and without the reason list. */
  predicate Passes(rule: Rule, r: Report) {
    && r.total >= rule.minTotal
    && r.candidateOnly > r.baselineOnly
    && Ratio(r.both + r.candidateOnly, r.total) >= rule.minCandidateScore
    && Ratio(r.candidateOnly - r.baselineOnly, r.total) >= rule.minImprovement
    && r.candidateOnly + r.baselineOnly >= rule.minDiscordant
    && McNemar.Tail(r.candidateOnly, r.baselineOnly) <= rule.maxPValue
  }

  function AppendIf(reasons: seq<Reason>, condition: bool, reason: Reason): seq<Reason> {
    if condition then reasons + [reason] else reasons
  }

  function Reasons(rule: Rule, r: Report): seq<Reason> {
    var score := Ratio(r.both + r.candidateOnly, r.total);
    var improvement := Ratio(r.candidateOnly - r.baselineOnly, r.total);
    var discordant := r.candidateOnly + r.baselineOnly;
    var p := McNemar.Tail(r.candidateOnly, r.baselineOnly);
    var r1 := AppendIf([], r.total < rule.minTotal, TotalBelow(r.total, rule.minTotal));
    var r2 := AppendIf(r1, improvement <= 0.0, NotOutperforming);
    var r3 := AppendIf(r2, score < rule.minCandidateScore, ScoreBelow(r.candidateScore, rule.minCandidateScore));
    var r4 := AppendIf(r3, improvement < rule.minImprovement, ImprovementBelow(improvement, rule.minImprovement));
    var r5 := AppendIf(r4, discordant < rule.minDiscordant, DiscordantBelow(discordant, rule.minDiscordant));
    AppendIf(r5, p > rule.maxPValue, PValueAbove(p, rule.maxPValue))
  }

  function CheckFor(rule: Rule, r: Report, digest: Report -> string): Check {
    var reasons := Reasons(rule, r);
    Check(rule.role, r.evidenceId, digest(r), reasons == [], r.total, r.baselineScore, r.candidateScore,
          Ratio(r.candidateOnly - r.baselineOnly, r.total), r.candidateOnly + r.baselineOnly,
          r.candidateOnly, r.baselineOnly, McNemar.Tail(r.candidateOnly, r.baselineOnly), reasons)
  }

  /** Every rule finds evidence of its role. */
  predicate Covered(rules: seq<Rule>, evidence: seq<Report>) {
    forall i :: 0 <= i < |rules| ==> EvidenceFor(evidence, rules[i].role).Some?
  }

  /** Every report has a rule of its role. */
  predicate Declared(rules: seq<Rule>, evidence: seq<Report>) {
    forall i :: 0 <= i < |evidence| ==> exists j :: 0 <= j < |rules| && rules[j].role == evidence[i].role
  }

  function Prepend(checks: seq<Check>, rest: Result<seq<Check>, GateError>): Result<seq<Check>, GateError> {
    match rest
    case Ok(more) => Ok(checks + more)
    case Err(e) => Err(e)
  }

  /** The checks `judge` gives for `rules[i..]`, or the first evidence mismatch among them. */
  function CheckRules(rules: seq<Rule>, i: nat, proposal: Proposal, judge: (Rule, Report) -> Check)
    : Result<seq<Check>, GateError>
    requires Covered(rules, proposal.evidence) && i <= |rules|
    decreases |rules| - i
  {
    if i == |rules| then Ok([])
    else
      var rule := rules[i];
      var report := EvidenceFor(proposal.evidence, rule.role).value;
      if report.baseline != proposal.baseline then Err(BaselineMismatch(rule.role))
      else if report.candidate != proposal.candidate then Err(CandidateMismatch(rule.role))
      else Prepend([judge(rule, report)], CheckRules(rules, i + 1, proposal, judge))
  }

  function Judge(digest: Report -> string): (Rule, Report) -> Check {
    (rule: Rule, report: Report) => CheckFor(rule, report, digest)
  }

  function Checks(policy: Policy, proposal: Proposal, digest: Report -> string): Result<seq<Check>, GateError> {
    if !Covered(policy.rules, proposal.evidence) then Err(MissingRoles)
    else if !Declared(policy.rules, proposal.evidence) then Err(UnexpectedRoles)
    else CheckRules(policy.rules, 0, proposal, Judge(digest))
  }

  /** `_promotion_checks`: the loop over the rules, appending reasons and checks. */
  method PromotionChecks(policy: Policy, proposal: Proposal, digest: Report -> string)
    returns (outcome: Result<seq<Check>, GateError>)
    ensures outcome == Checks(policy, proposal, digest)
  {
    if !Covered(policy.rules, proposal.evidence) {
      return Err(MissingRoles);
    }
    if !Declared(policy.rules, proposal.evidence) {
      return Err(UnexpectedRoles);
    }
    ghost var judge := Judge(digest);
    var checks: seq<Check> := [];
    PrependNothing(CheckRules(policy.rules, 0, proposal, judge));
    for i := 0 to |policy.rules|
      invariant CheckRules(policy.rules, 0, proposal, judge)
             == Prepend(checks, CheckRules(policy.rules, i, proposal, judge))
    {
      var rule := policy.rules[i];
      var report := EvidenceFor(proposal.evidence, rule.role).value;
      if report.baseline != proposal.baseline {
        return Err(BaselineMismatch(rule.role));
      }
      if report.candidate != proposal.candidate {
        return Err(CandidateMismatch(rule.role));
      }
      var check := JudgeRule(rule, report, digest);
      PrependTwice(checks, check, CheckRules(policy.rules, i + 1, proposal, judge));
      checks := checks + [check];
    }
    assert checks + [] == checks;
    return Ok(checks);
  }

  lemma {:induction false} PrependNothing(rest: Result<seq<Check>, GateError>)
    ensures Prepend([], rest) == rest
  {
    if rest.Ok? {
      assert [] + rest.value == rest.value;
    }
  }

  lemma {:induction false} PrependTwice(checks: seq<Check>, check: Check, rest: Result<seq<Check>, GateError>)
    ensures Prepend(checks, Prepend([check], rest)) == Prepend(checks + [check], rest)
  {
    if rest.Ok? {
      assert checks + ([check] + rest.value) == (checks + [check]) + rest.value;
    }
  }

  /** One iteration: the exact fractions, the reasons, and the check built from them. */
  method JudgeRule(rule: Rule, report: Report, digest: Report -> string) returns (check: Check)
    ensures check == Judge(digest)(rule, report)
    ensures check.passed <==> Passes(rule, report)
  {
    var reasons := CollectReasons(rule, report);
    check := Check(
      rule.role, report.evidenceId, digest(report), reasons == [], report.total,
      report.baselineScore, report.candidateScore,
      Ratio(report.candidateOnly - report.baselineOnly, report.total),
      report.candidateOnly + report.baselineOnly, report.candidateOnly, report.baselineOnly,
      McNemar.Tail(report.candidateOnly, report.baselineOnly), reasons);
  }

  /** The six guarded appends to `reasons`. */
  method CollectReasons(rule: Rule, r: Report) returns (reasons: seq<Reason>)
    ensures reasons == Reasons(rule, r)
    ensures reasons == [] <==> Passes(rule, r)
  {
    var score := Ratio(r.both + r.candidateOnly, r.total);
    var improvement := Ratio(r.candidateOnly - r.baselineOnly, r.total);
    var discordant := r.candidateOnly + r.baselineOnly;
    var p := McNemar.Tail(r.candidateOnly, r.baselineOnly);
    reasons := [];
    if r.total < rule.minTotal {
      reasons := reasons + [TotalBelow(r.total, rule.minTotal)];
    }
    if improvement <= 0.0 {
      reasons := reasons + [NotOutperforming];
    }
    if score < rule.minCandidateScore {
      reasons := reasons + [ScoreBelow(r.candidateScore, rule.minCandidateScore)];
    }
    if improvement < rule.minImprovement {
      reasons := reasons + [ImprovementBelow(improvement, rule.minImprovement)];
    }
    if discordant < rule.minDiscordant {
      reasons := reasons + [DiscordantBelow(discordant, rule.minDiscordant)];
    }
    if p > rule.maxPValue {
      reasons := reasons + [PValueAbove(p, rule.maxPValue)];
    }
    ReasonsEmptyIffPasses(rule, r);
  }

  // ---- what the checks mean -------------------------------------------------------------------

  lemma {:induction false} RatioOrder(a: int, b: int, total: int)
    requires total > 0
    ensures Ratio(a, total) <= Ratio(b, total) <==> a <= b
    ensures Ratio(a, total) <= 0.0 <==> a <= 0
  {
    var x, y, t := Ratio(a, total), Ratio(b, total), total as real;
    assert x * t == a as real && y * t == b as real;
    if a <= b {
      McNemar.OrderByPositive(y - x, t);
    } else {
      McNemar.OrderByPositive(x - y, t);
    }
  }

  lemma {:induction false} ReasonsEmptyIffPasses(rule: Rule, r: Report)
    ensures Reasons(rule, r) == [] <==> Passes(rule, r)
  {
    RatioOrder(r.candidateOnly - r.baselineOnly, 0, r.total);
  }

  /** The check `judge` gives for a report of the rule's role, on the proposal's two variants. */
  ghost predicate JudgedOn(
    check: Check, rule: Rule, report: Report, proposal: Proposal, judge: (Rule, Report) -> Check)
  {
    && report in proposal.evidence
    && report.role == rule.role
    && report.baseline == proposal.baseline && report.candidate == proposal.candidate
    && check == judge(rule, report)
  }

  ghost predicate Judged(check: Check, rule: Rule, proposal: Proposal, judge: (Rule, Report) -> Check) {
    exists report :: JudgedOn(check, rule, report, proposal, judge)
  }

  /** Success gives one check a rule, in rule order, each judged on evidence of its own role. */
  lemma {:induction false} CheckRulesMeaning(
    rules: seq<Rule>, i: nat, proposal: Proposal, judge: (Rule, Report) -> Check)
    requires Covered(rules, proposal.evidence) && i <= |rules|
    requires CheckRules(rules, i, proposal, judge).Ok?
    ensures |CheckRules(rules, i, proposal, judge).value| == |rules| - i
    ensures forall j :: i <= j < |rules| ==>
              Judged(CheckRules(rules, i, proposal, judge).value[j - i], rules[j], proposal, judge)
    decreases |rules| - i
  {
    if i < |rules| {
      CheckRulesMeaning(rules, i + 1, proposal, judge);
      var report := EvidenceFor(proposal.evidence, rules[i].role).value;
      assert JudgedOn(judge(rules[i], report), rules[i], report, proposal, judge);
    }
  }

  /** The same from the first rule on, and about the list itself. */
  lemma {:induction false} AllChecksAreJudged(
    checks: seq<Check>, rules: seq<Rule>, proposal: Proposal, judge: (Rule, Report) -> Check)
    requires Covered(rules, proposal.evidence) && CheckRules(rules, 0, proposal, judge) == Ok(checks)
    ensures |checks| == |rules|
    ensures forall i :: 0 <= i < |checks| ==> Judged(checks[i], rules[i], proposal, judge)
  {
    CheckRulesMeaning(rules, 0, proposal, judge);
    forall i | 0 <= i < |checks| ensures Judged(checks[i], rules[i], proposal, judge) {
      assert Judged(checks[i - 0], rules[i], proposal, judge);
    }
  }

  /** A judged check passed exactly when the report's cells meet the rule. */
  lemma {:induction false} JudgedPasses(
    check: Check, rule: Rule, report: Report, proposal: Proposal, digest: Report -> string)
    requires JudgedOn(check, rule, report, proposal, Judge(digest))
    ensures check.passed <==> Passes(rule, report)
  {
    ReasonsEmptyIffPasses(rule, report);
  }

  /** Pointwise at least as good for the candidate, on a partition of the same size. */
  predicate AtLeastAsGood(better: Report, r: Report) {
    && better.total == r.total
    && better.candidateOnly >= r.candidateOnly
    && better.baselineOnly <= r.baselineOnly
    && better.both + better.candidateOnly >= r.both + r.candidateOnly
    && better.candidateOnly + better.baselineOnly >= r.candidateOnly + r.baselineOnly
  }

  /** The gate is monotone for every threshold setting. */
  lemma {:induction false} PassesMonotone(rule: Rule, r: Report, better: Report)
    requires AtLeastAsGood(better, r)
    requires Passes(rule, r)
    ensures Passes(rule, better)
  {
    RatioOrder(r.both + r.candidateOnly, better.both + better.candidateOnly, r.total);
    RatioOrder(r.candidateOnly - r.baselineOnly, better.candidateOnly - better.baselineOnly, r.total);
    McNemar.TailMonotone(r.candidateOnly, better.candidateOnly, r.baselineOnly, better.baselineOnly);
  }

  function MoveNeitherToCandidate(r: Report): Report
    requires r.neither > 0
  {
    r.(neither := r.neither - 1, candidateOnly := r.candidateOnly + 1,
       candidateScore := Ratio(r.both + r.candidateOnly + 1, r.total))
  }

  function MoveBaselineToCandidate(r: Report): Report
    requires r.baselineOnly > 0
  {
    r.(baselineOnly := r.baselineOnly - 1, candidateOnly := r.candidateOnly + 1,
       baselineScore := Ratio(r.both + r.baselineOnly - 1, r.total),
       candidateScore := Ratio(r.both + r.candidateOnly + 1, r.total))
  }

  /** One more case won by the candidate gives a valid report and never loses a passed rule. */
  lemma {:induction false} MovesKeepPassing(rule: Rule, r: Report)
    requires Passes(rule, r)
    ensures r.neither > 0 ==> Passes(rule, MoveNeitherToCandidate(r))
    ensures r.baselineOnly > 0 ==> Passes(rule, MoveBaselineToCandidate(r))
  {
    if r.neither > 0 {
      PassesMonotone(rule, r, MoveNeitherToCandidate(r));
    }
    if r.baselineOnly > 0 {
      PassesMonotone(rule, r, MoveBaselineToCandidate(r));
    }
  }

  lemma {:induction false} ReciprocalTimes(pairs: real)
    requires pairs > 0.0
    ensures 1.0 / pairs * pairs == 1.0
  {
  }

  lemma {:induction false} CeilingAboveReciprocal(tail: real, ceiling: real, pairs: real)
    requires pairs > 0.0 && 1.0 / pairs <= tail <= ceiling
    ensures ceiling * pairs >= 1.0
  {
    ReciprocalTimes(pairs);
    ScaleOrder(1.0 / pairs, ceiling, pairs);
  }

  /** No rule can be met by fewer discordant pairs than its p-value allows: 2^-n is the floor. */
  lemma {:induction false} PassingNeedsEnoughPairs(rule: Rule, r: Report)
    requires Passes(rule, r)
    ensures rule.maxPValue * McNemar.Pow2(r.candidateOnly + r.baselineOnly) as real >= 1.0
  {
    var c, b := r.candidateOnly, r.baselineOnly;
    McNemar.TailFloor(c, b);
    CeilingAboveReciprocal(McNemar.Tail(c, b), rule.maxPValue, McNemar.Pow2(c + b) as real);
  }

  lemma {:induction false} ScaleOrder(x: real, y: real, scale: real)
    requires x <= y && scale >= 0.0
    ensures x * scale <= y * scale
  {
  }

  /** Every p-value ceiling of at least 1/2 is met by any strict lead. */
  lemma {:induction false} LooseCeilingIsNoConstraint(rule: Rule, r: Report)
    requires rule.maxPValue >= 0.5 && r.candidateOnly > r.baselineOnly
    ensures McNemar.Tail(r.candidateOnly, r.baselineOnly) <= rule.maxPValue
  {
    McNemar.TailHalf(r.candidateOnly, r.baselineOnly);
  }
}
