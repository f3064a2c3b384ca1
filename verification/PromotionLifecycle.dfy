/**
 * The chain decision -> receipt -> rollback event of promotion_lifecycle.py,
 * promotion_decision_ops.py and promotion_rollback.py. Digests are uninterpreted functions.
 */
module PromotionLifecycle {
  import opened Prelude
  import opened PromotionEvidence
  import opened PromotionGate

  datatype Kind = Promote | Reject

  datatype Decision = Decision(
    policy: Policy, proposal: Proposal, policyId: string, policySha256: string, proposalId: string,
    proposalSha256: string, baseline: Variant, candidate: Variant, kind: Kind, checks: seq<Check>)

  datatype Operator = Lt | Lte | Gt | Gte

  datatype Trigger = Trigger(id: string, operator: Operator, threshold: real, minSamples: int, windowSeconds: int)

  datatype Plan = Plan(
    id: string, decisionSha256: string, active: Variant, target: Variant, triggers: seq<Trigger>)

  datatype Receipt = Receipt(
    decisionSha256: string, decision: Decision, policyId: string, policySha256: string, proposalId: string,
    proposalSha256: string, active: Variant, previous: Variant, planSha256: string, rollback: Plan)

  datatype Event = Event(
    id: string, receiptSha256: string, from: Variant, to: Variant, triggerId: string, observed: real,
    samples: int, windowSeconds: int, actor: string, occurredAt: int)

  /** A Python float: a finite value, or one of inf, -inf, nan. */
  datatype Float = Finite(value: real) | NonFinite

  /** The canonical SHA-256 identities, one function per model. */
  datatype Digests = Digests(
    report: Report -> string, policy: Policy -> string, proposal: Proposal -> string,
    decision: Decision -> string, plan: Plan -> string, receipt: Receipt -> string)

  datatype Error =
    | Gate(error: GateError) | InvalidInput | NotPromoted | DecisionDigestMismatch
    | ActiveMismatch | TargetMismatch | UnstableIdentifier | UndeclaredTrigger
    | NonFiniteObservation | NoSamples | EmptyWindow | WindowMismatch | NotTriggered

  // ---- validators -----------------------------------------------------------------------------

  predicate ValidDecision(h: Digests, d: Decision) {
    && d.policyId == d.policy.id && d.policySha256 == h.policy(d.policy)
    && d.proposalId == d.proposal.id && d.proposalSha256 == h.proposal(d.proposal)
    && d.baseline == d.proposal.baseline && d.candidate == d.proposal.candidate
    && 1 <= |d.checks| <= 2
    && (forall i, j :: 0 <= i < j < |d.checks| ==> d.checks[i].role != d.checks[j].role)
    && (forall i, j :: 0 <= i < j < |d.checks| ==> d.checks[i].evidenceId != d.checks[j].evidenceId)
    && Checks(d.policy, d.proposal, h.report) == Ok(d.checks)
    && (d.kind == Promote <==> AllPassed(d.checks))
  }

  predicate AllPassed(checks: seq<Check>) {
    forall i :: 0 <= i < |checks| ==> checks[i].passed
  }

  predicate ValidPlan(p: Plan) {
    && 1 <= |p.triggers| <= 64
    && (forall i, j :: 0 <= i < j < |p.triggers| ==> p.triggers[i].id != p.triggers[j].id)
    && Different(p.active, p.target)
  }

  predicate ValidReceipt(h: Digests, r: Receipt) {
    && ValidDecision(h, r.decision) && ValidPlan(r.rollback)
    && r.decision.kind == Promote
    && r.decisionSha256 == h.decision(r.decision)
    && r.policyId == r.decision.policyId && r.policySha256 == r.decision.policySha256
    && r.proposalId == r.decision.proposalId && r.proposalSha256 == r.decision.proposalSha256
    && r.active == r.decision.candidate && r.previous == r.decision.baseline
    && r.planSha256 == h.plan(r.rollback)
    && r.rollback.decisionSha256 == r.decisionSha256
    && r.rollback.active == r.active && r.rollback.target == r.previous
  }

  predicate ValidEvent(e: Event) {
    Different(e.from, e.to) && e.samples >= 1 && e.windowSeconds >= 1
  }

  // ---- operations -----------------------------------------------------------------------------

  function Evaluate(h: Digests, policy: Policy, proposal: Proposal): Result<Decision, Error> {
    match Checks(policy, proposal, h.report)
    case Err(e) => Err(Gate(e))
    case Ok(checks) =>
      Ok(Decision(policy, proposal, policy.id, h.policy(policy), proposal.id, h.proposal(proposal),
                  proposal.baseline, proposal.candidate,
                  if AllPassed(checks) then Promote else Reject, checks))
  }

  function Materialize(h: Digests, d: Decision, plan: Plan): Result<Receipt, Error> {
    if !ValidDecision(h, d) || !ValidPlan(plan) then Err(InvalidInput)
    else if d.kind != Promote then Err(NotPromoted)
    else if plan.decisionSha256 != h.decision(d) then Err(DecisionDigestMismatch)
    else if plan.active != d.candidate then Err(ActiveMismatch)
    else if plan.target != d.baseline then Err(TargetMismatch)
    else Ok(Receipt(h.decision(d), d, d.policyId, d.policySha256, d.proposalId, d.proposalSha256,
                    d.candidate, d.baseline, h.plan(plan), plan))
  }

  function Compare(op: Operator, observed: real, threshold: real): bool {
    match op
    case Lt => observed < threshold
    case Lte => observed <= threshold
    case Gt => observed > threshold
    case Gte => observed >= threshold
  }

  function RollbackTriggered(t: Trigger, observed: Float, samples: int, window: Option<int>): Result<bool, Error> {
    var seconds := if window.None? then t.windowSeconds else window.value;
    if observed.NonFinite? then Err(NonFiniteObservation)
    else if samples < 1 then Err(NoSamples)
    else if seconds < 1 then Err(EmptyWindow)
    else if seconds != t.windowSeconds then Err(WindowMismatch)
    else if samples < t.minSamples then Ok(false)
    else Ok(Compare(t.operator, observed.value, t.threshold))
  }

  /** `{trigger.id: trigger for trigger in triggers}.get(id)`. */
  function FindTrigger(triggers: seq<Trigger>, id: string): (r: Option<Trigger>)
    ensures r.Some? ==> r.value in triggers && r.value.id == id
    ensures r.None? ==> forall t :: t in triggers ==> t.id != id
  {
    if triggers == [] then None
    else if triggers[|triggers| - 1].id == id then Some(triggers[|triggers| - 1])
    else FindTrigger(triggers[..|triggers| - 1], id)
  }

  /** The arguments of `record_rollback` beside the receipt. */
  datatype Observation = Observation(
    eventId: string, triggerId: string, observed: Float, samples: int, actor: string, occurredAt: int,
    window: Option<int>)

  function RecordRollback(h: Digests, r: Receipt, o: Observation): Result<Event, Error> {
    if !IsStableId(o.eventId) || !IsStableId(o.actor) then Err(UnstableIdentifier)
    else if !ValidReceipt(h, r) then Err(InvalidInput)
    else match FindTrigger(r.rollback.triggers, o.triggerId)
      case None => Err(UndeclaredTrigger)
      case Some(t) =>
        var seconds := if o.window.None? then t.windowSeconds else o.window.value;
        match RollbackTriggered(t, o.observed, o.samples, Some(seconds))
        case Err(e) => Err(e)
        case Ok(false) => Err(NotTriggered)
        case Ok(true) =>
          Ok(Event(o.eventId, h.receipt(r), r.active, r.previous, o.triggerId, o.observed.value, o.samples,
                   seconds, o.actor, o.occurredAt))
  }

  // ---- evaluation -----------------------------------------------------------------------------

  /** A judgement names the rule's role and the report's id. */
  ghost predicate Names(judge: (Rule, Report) -> Check) {
    forall rule: Rule, report: Report ::
      judge(rule, report).role == rule.role && judge(rule, report).evidenceId == report.evidenceId
  }

  lemma {:induction false} JudgeNames(digest: Report -> string)
    ensures Names(Judge(digest))
  {
  }

  lemma {:induction false} JudgedChecksDiffer(policy: Policy, proposal: Proposal, judge: (Rule, Report) -> Check,
                           i: nat, j: nat, a: Check, b: Check)
    requires Names(judge) && i < j < |policy.rules|
    requires Judged(a, policy.rules[i], proposal, judge) && Judged(b, policy.rules[j], proposal, judge)
    ensures a.role != b.role && a.evidenceId != b.evidenceId
  {
    var x :| JudgedOn(a, policy.rules[i], x, proposal, judge);
    var y :| JudgedOn(b, policy.rules[j], y, proposal, judge);
    var m :| 0 <= m < |proposal.evidence| && proposal.evidence[m] == x;
    var n :| 0 <= n < |proposal.evidence| && proposal.evidence[n] == y;
    assert m != n;
  }

  /** The check list of a valid proposal has unique roles and unique evidence ids. */
  lemma {:induction false} ChecksAreUnambiguous(policy: Policy, proposal: Proposal, judge: (Rule, Report) -> Check)
    requires Names(judge) && Covered(policy.rules, proposal.evidence)
    requires CheckRules(policy.rules, 0, proposal, judge).Ok?
    ensures var checks := CheckRules(policy.rules, 0, proposal, judge).value;
            && |checks| == |policy.rules|
            && forall i, j :: 0 <= i < j < |checks| ==>
                 checks[i].role != checks[j].role && checks[i].evidenceId != checks[j].evidenceId
  {
    var checks := CheckRules(policy.rules, 0, proposal, judge).value;
    CheckRulesMeaning(policy.rules, 0, proposal, judge);
    forall i, j | 0 <= i < j < |checks|
      ensures checks[i].role != checks[j].role && checks[i].evidenceId != checks[j].evidenceId
    {
      assert Judged(checks[i - 0], policy.rules[i], proposal, judge);
      assert Judged(checks[j - 0], policy.rules[j], proposal, judge);
      JudgedChecksDiffer(policy, proposal, judge, i, j, checks[i], checks[j]);
    }
  }

  /** A decision validates exactly when evaluating its own policy and proposal reproduces it. */
  lemma {:induction false} DecisionValidIffEvaluated(h: Digests, d: Decision)
    ensures ValidDecision(h, d) <==> Evaluate(h, d.policy, d.proposal) == Ok(d)
  {
    if Evaluate(h, d.policy, d.proposal) == Ok(d) {
      JudgeNames(h.report);
      ChecksAreUnambiguous(d.policy, d.proposal, Judge(h.report));
    }
  }

  function RuleRoles(rules: seq<Rule>): set<Role> {
    set i | 0 <= i < |rules| :: rules[i].role
  }

  function EvidenceRoles(evidence: seq<Report>): set<Role> {
    set i | 0 <= i < |evidence| :: evidence[i].role
  }

  lemma {:induction false} FoundIffInRoles(evidence: seq<Report>, role: Role)
    ensures EvidenceFor(evidence, role).Some? <==> role in EvidenceRoles(evidence)
  {
    var found := EvidenceFor(evidence, role);
    if found.Some? {
      var m :| 0 <= m < |evidence| && evidence[m] == found.value;
    }
  }

  lemma {:induction false} CoveredIffIncluded(rules: seq<Rule>, evidence: seq<Report>)
    ensures Covered(rules, evidence) <==> RuleRoles(rules) <= EvidenceRoles(evidence)
  {
    forall role ensures EvidenceFor(evidence, role).Some? <==> role in EvidenceRoles(evidence) {
      FoundIffInRoles(evidence, role);
    }
    if !Covered(rules, evidence) {
      var i :| 0 <= i < |rules| && EvidenceFor(evidence, rules[i].role).None?;
      assert rules[i].role in RuleRoles(rules);
    }
  }

  lemma {:induction false} DeclaredIffIncluded(rules: seq<Rule>, evidence: seq<Report>)
    ensures Declared(rules, evidence) <==> EvidenceRoles(evidence) <= RuleRoles(rules)
  {
    if !Declared(rules, evidence) {
      var i :| 0 <= i < |evidence| && !exists j :: 0 <= j < |rules| && rules[j].role == evidence[i].role;
      assert evidence[i].role in EvidenceRoles(evidence);
    }
  }

  /** Evaluation fails only when the roles of policy and evidence differ as sets. */
  lemma {:induction false} EvaluateFailsIffRolesDiffer(h: Digests, policy: Policy, proposal: Proposal)
    ensures Evaluate(h, policy, proposal).Ok? <==> RuleRoles(policy.rules) == EvidenceRoles(proposal.evidence)
  {
    CoveredIffIncluded(policy.rules, proposal.evidence);
    DeclaredIffIncluded(policy.rules, proposal.evidence);
    if Covered(policy.rules, proposal.evidence) {
      NoMismatch(policy.rules, 0, proposal, Judge(h.report));
    }
  }

  /** The proposal validator already rules out evidence about other variants. */
  lemma {:induction false} NoMismatch(
    rules: seq<Rule>, i: nat, proposal: Proposal, judge: (Rule, Report) -> Check)
    requires Covered(rules, proposal.evidence) && i <= |rules|
    ensures CheckRules(rules, i, proposal, judge).Ok?
    decreases |rules| - i
  {
    if i < |rules| {
      NoMismatch(rules, i + 1, proposal, judge);
      var report := EvidenceFor(proposal.evidence, rules[i].role).value;
      var m :| 0 <= m < |proposal.evidence| && proposal.evidence[m] == report;
    }
  }

  /** The report of a role in a proposal. */
  ghost predicate Holds(proposal: Proposal, rule: Rule) {
    exists report: Report ::
      report in proposal.evidence && report.role == rule.role && Passes(rule, report)
  }

  lemma {:induction false} PassedMeansHolds(check: Check, rule: Rule, proposal: Proposal, digest: Report -> string)
    requires Judged(check, rule, proposal, Judge(digest))
    ensures check.passed <==> Holds(proposal, rule)
  {
    var report :| JudgedOn(check, rule, report, proposal, Judge(digest));
    JudgedPasses(check, rule, report, proposal, digest);
    forall other: Report | other in proposal.evidence && other.role == rule.role ensures other == report {
      OneReportPerRole(proposal, report, other);
    }
  }

  lemma {:induction false} DecisionChecksAreJudged(h: Digests, d: Decision)
    requires Checks(d.policy, d.proposal, h.report) == Ok(d.checks)
    ensures |d.checks| == |d.policy.rules|
    ensures forall i :: 0 <= i < |d.checks| ==> Judged(d.checks[i], d.policy.rules[i], d.proposal, Judge(h.report))
  {
    AllChecksAreJudged(d.checks, d.policy.rules, d.proposal, Judge(h.report));
  }

  /** A valid decision promotes exactly when every rule of its policy is met by its own evidence. */
  lemma {:induction false} PromoteMeansEveryRulePasses(h: Digests, d: Decision)
    requires ValidDecision(h, d)
    ensures d.kind == Promote <==>
              forall i :: 0 <= i < |d.policy.rules| ==> Holds(d.proposal, d.policy.rules[i])
  {
    DecisionChecksAreJudged(h, d);
    JudgedPassIffRulesHold(d.checks, d.policy.rules, d.proposal, h.report);
  }

  lemma {:induction false} JudgedPassIffRulesHold(
    checks: seq<Check>, rules: seq<Rule>, proposal: Proposal, digest: Report -> string)
    requires |checks| == |rules|
    requires forall i :: 0 <= i < |checks| ==> Judged(checks[i], rules[i], proposal, Judge(digest))
    ensures AllPassed(checks) <==> forall i :: 0 <= i < |rules| ==> Holds(proposal, rules[i])
  {
    forall i | 0 <= i < |checks| ensures checks[i].passed <==> Holds(proposal, rules[i]) {
      PassedMeansHolds(checks[i], rules[i], proposal, digest);
    }
  }

  lemma {:induction false} OneReportPerRole(proposal: Proposal, a: Report, b: Report)
    requires a in proposal.evidence && b in proposal.evidence && a.role == b.role
    ensures a == b
  {
    var m :| 0 <= m < |proposal.evidence| && proposal.evidence[m] == a;
    var n :| 0 <= n < |proposal.evidence| && proposal.evidence[n] == b;
    assert m == n;
  }

  /** The same roles in the same order, each cell at least as good for the candidate. */
  ghost predicate Improves(better: seq<Report>, evidence: seq<Report>) {
    && |better| == |evidence|
    && forall i :: 0 <= i < |better| ==>
         better[i].role == evidence[i].role && AtLeastAsGood(better[i], evidence[i])
  }

  lemma {:induction false} ImprovementKeepsHolds(proposal: Proposal, better: Proposal, rule: Rule)
    requires Improves(better.evidence, proposal.evidence) && Holds(proposal, rule)
    ensures Holds(better, rule)
  {
    var report: Report :| report in proposal.evidence && report.role == rule.role && Passes(rule, report);
    var m :| 0 <= m < |proposal.evidence| && proposal.evidence[m] == report;
    PassesMonotone(rule, report, better.evidence[m]);
    assert better.evidence[m] in better.evidence;
  }

  lemma {:induction false} ImprovementKeepsRoles(proposal: Proposal, better: Proposal)
    requires Improves(better.evidence, proposal.evidence)
    ensures EvidenceRoles(proposal.evidence) == EvidenceRoles(better.evidence)
  {
  }

  /** Better evidence on the same partitions keeps a promotion, whatever the thresholds. */
  lemma {:induction false} PromotionMonotone(h: Digests, d: Decision, better: Proposal)
    requires ValidDecision(h, d) && d.kind == Promote
    requires Improves(better.evidence, d.proposal.evidence)
    ensures Evaluate(h, d.policy, better).Ok? && Evaluate(h, d.policy, better).value.kind == Promote
  {
    DecisionValidIffEvaluated(h, d);
    EvaluateFailsIffRolesDiffer(h, d.policy, d.proposal);
    ImprovementKeepsRoles(d.proposal, better);
    EvaluateFailsIffRolesDiffer(h, d.policy, better);
    EvaluatedPromotes(h, d, better);
  }

  lemma {:induction false} EvaluatedPromotes(h: Digests, d: Decision, better: Proposal)
    requires ValidDecision(h, d) && d.kind == Promote
    requires Improves(better.evidence, d.proposal.evidence)
    requires Evaluate(h, d.policy, better).Ok?
    ensures Evaluate(h, d.policy, better).value.kind == Promote
  {
    var e := Evaluate(h, d.policy, better).value;
    DecisionValidIffEvaluated(h, e);
    PromoteMeansEveryRulePasses(h, d);
    PromoteMeansEveryRulePasses(h, e);
    forall i | 0 <= i < |d.policy.rules| ensures Holds(better, d.policy.rules[i]) {
      ImprovementKeepsHolds(d.proposal, better, d.policy.rules[i]);
    }
  }

  // ---- receipts and events --------------------------------------------------------------------

  /** A receipt validates exactly when materializing its own decision and plan reproduces it. */
  lemma {:induction false} ReceiptValidIffMaterialized(h: Digests, r: Receipt)
    ensures ValidReceipt(h, r) <==> Materialize(h, r.decision, r.rollback) == Ok(r)
  {
  }

  /** The digests tell apart the two receipts' decisions and their rollback plans. */
  predicate NoCollision(h: Digests, r: Receipt, q: Receipt) {
    && (h.decision(r.decision) == h.decision(q.decision) ==> r.decision == q.decision)
    && (h.plan(r.rollback) == h.plan(q.rollback) ==> r.rollback == q.rollback)
  }

  /** The digest of a rollback plan names one receipt, and so one decision. */
  lemma {:induction false} PlanBindsOneReceipt(h: Digests, r: Receipt, q: Receipt)
    requires ValidReceipt(h, r) && ValidReceipt(h, q) && NoCollision(h, r, q)
    ensures r.planSha256 == q.planSha256 ==> r == q
  {
    ReceiptValidIffMaterialized(h, r);
    ReceiptValidIffMaterialized(h, q);
  }

  /** What the operator of a trigger asks of an observation. */
  predicate Satisfies(t: Trigger, observed: real) {
    || (t.operator == Lt && observed < t.threshold)
    || (t.operator == Lte && observed <= t.threshold)
    || (t.operator == Gt && observed > t.threshold)
    || (t.operator == Gte && observed >= t.threshold)
  }

  /** When a trigger can be evaluated, and when it fires. */
  lemma {:induction false} TriggeredIff(t: Trigger, observed: Float, samples: int, window: Option<int>)
    ensures RollbackTriggered(t, observed, samples, window).Ok? <==>
              && observed.Finite? && samples >= 1 && t.windowSeconds >= 1
              && (window == None || window == Some(t.windowSeconds))
    ensures RollbackTriggered(t, observed, samples, window) == Ok(true) <==>
              && observed.Finite? && samples >= 1 && t.windowSeconds >= 1
              && (window == None || window == Some(t.windowSeconds))
              && samples >= t.minSamples && Satisfies(t, observed.value)
  {
  }

  ghost predicate Fired(t: Trigger, e: Event) {
    && t.id == e.triggerId
    && e.windowSeconds == t.windowSeconds
    && e.samples >= t.minSamples
    && Satisfies(t, e.observed)
  }

  /** What a rollback event proves about the promotion it undoes. */
  ghost predicate Accountable(h: Digests, e: Event, r: Receipt) {
    var proposal := r.decision.proposal;
    && e.receiptSha256 == h.receipt(r)
    && e.from == proposal.candidate && e.to == proposal.baseline
    && (forall i :: 0 <= i < |r.decision.policy.rules| ==> Holds(proposal, r.decision.policy.rules[i]))
    && (forall report :: report in proposal.evidence ==> report.candidateOnly > report.baselineOnly)
    && exists t :: t in r.rollback.triggers && Fired(t, e)
  }

  /** Promotion means a strict win in every report of the evidence. */
  lemma {:induction false} EveryReportIsWon(h: Digests, d: Decision, report: Report)
    requires ValidDecision(h, d) && d.kind == Promote && report in d.proposal.evidence
    ensures report.candidateOnly > report.baselineOnly
  {
    PromoteMeansEveryRulePasses(h, d);
    DecisionValidIffEvaluated(h, d);
    EvaluateFailsIffRolesDiffer(h, d.policy, d.proposal);
    var i := RuleForReport(d, report);
    assert Holds(d.proposal, d.policy.rules[i]);
    var winner: Report :| winner in d.proposal.evidence && winner.role == d.policy.rules[i].role
                          && Passes(d.policy.rules[i], winner);
    OneReportPerRole(d.proposal, winner, report);
  }

  lemma {:induction false} RuleForReport(d: Decision, report: Report) returns (i: nat)
    requires RuleRoles(d.policy.rules) == EvidenceRoles(d.proposal.evidence)
    requires report in d.proposal.evidence
    ensures i < |d.policy.rules| && d.policy.rules[i].role == report.role
  {
    var m :| 0 <= m < |d.proposal.evidence| && d.proposal.evidence[m] == report;
    assert report.role in EvidenceRoles(d.proposal.evidence);
    i :| 0 <= i < |d.policy.rules| && d.policy.rules[i].role == report.role;
  }

  lemma {:induction false} TriggerFired(h: Digests, r: Receipt, o: Observation, e: Event) returns (t: Trigger)
    requires RecordRollback(h, r, o) == Ok(e)
    ensures t in r.rollback.triggers && Fired(t, e)
  {
    t := FindTrigger(r.rollback.triggers, o.triggerId).value;
    var seconds := if o.window.None? then t.windowSeconds else o.window.value;
    TriggeredIff(t, o.observed, o.samples, Some(seconds));
  }

  lemma {:induction false} RecordedFields(h: Digests, r: Receipt, o: Observation, e: Event)
    requires RecordRollback(h, r, o) == Ok(e)
    ensures ValidReceipt(h, r) && ValidEvent(e)
    ensures e.receiptSha256 == h.receipt(r) && e.from == r.active && e.to == r.previous
  {
  }

  /** What a valid promotion says of its evidence. */
  lemma {:induction false} PromotionIsWon(h: Digests, d: Decision)
    requires ValidDecision(h, d) && d.kind == Promote
    ensures forall i :: 0 <= i < |d.policy.rules| ==> Holds(d.proposal, d.policy.rules[i])
    ensures forall report :: report in d.proposal.evidence ==> report.candidateOnly > report.baselineOnly
  {
    PromoteMeansEveryRulePasses(h, d);
    forall report | report in d.proposal.evidence ensures report.candidateOnly > report.baselineOnly {
      EveryReportIsWon(h, d, report);
    }
  }

  /** Every recorded event validates and is accountable to the receipt it was recorded for. */
  lemma {:induction false} RollbackIsAccountable(h: Digests, r: Receipt, o: Observation, e: Event)
    requires RecordRollback(h, r, o) == Ok(e)
    ensures ValidEvent(e) && Accountable(h, e, r)
  {
    RecordedFields(h, r, o, e);
    PromotionIsWon(h, r.decision);
    var t := TriggerFired(h, r, o, e);
  }

  lemma {:induction false} DeclaredTriggerIsFound(plan: Plan, t: Trigger)
    requires ValidPlan(plan) && t in plan.triggers
    ensures FindTrigger(plan.triggers, t.id) == Some(t)
  {
    var found := FindTrigger(plan.triggers, t.id);
    var m :| 0 <= m < |plan.triggers| && plan.triggers[m] == t;
    var n :| 0 <= n < |plan.triggers| && plan.triggers[n] == found.value;
    assert m == n;
  }

  /** The observation is about this trigger, can be judged, and satisfies it. */
  predicate Fires(t: Trigger, o: Observation) {
    && t.id == o.triggerId && o.observed.Finite?
    && o.samples >= 1 && o.samples >= t.minSamples && t.windowSeconds >= 1
    && (o.window == None || o.window == Some(t.windowSeconds))
    && Satisfies(t, o.observed.value)
  }

  lemma {:induction false} RecordsIffItFires(h: Digests, r: Receipt, o: Observation, t: Trigger)
    requires ValidReceipt(h, r) && IsStableId(o.eventId) && IsStableId(o.actor)
    requires FindTrigger(r.rollback.triggers, o.triggerId) == Some(t)
    ensures RecordRollback(h, r, o).Ok? <==> Fires(t, o)
  {
    var seconds := if o.window.None? then t.windowSeconds else o.window.value;
    TriggeredIff(t, o.observed, o.samples, Some(seconds));
  }

  lemma {:induction false} Unrecorded(h: Digests, r: Receipt, o: Observation)
    requires !(IsStableId(o.eventId) && IsStableId(o.actor) && ValidReceipt(h, r))
             || FindTrigger(r.rollback.triggers, o.triggerId) == None
    ensures RecordRollback(h, r, o).Err?
  {
  }

  /** Exactly when an event can be recorded. */
  lemma {:induction false} RecordSucceedsIff(h: Digests, r: Receipt, o: Observation)
    ensures RecordRollback(h, r, o).Ok? <==>
              && IsStableId(o.eventId) && IsStableId(o.actor) && ValidReceipt(h, r)
              && exists t :: t in r.rollback.triggers && Fires(t, o)
  {
    var found := FindTrigger(r.rollback.triggers, o.triggerId);
    if !(IsStableId(o.eventId) && IsStableId(o.actor) && ValidReceipt(h, r)) || found == None {
      Unrecorded(h, r, o);
    } else {
      RecordsIffItFires(h, r, o, found.value);
      forall t | t in r.rollback.triggers && t.id == o.triggerId ensures found == Some(t) {
        DeclaredTriggerIsFound(r.rollback, t);
      }
    }
  }
}
