/**
 * Whole runs of the promotion workflow: comparisons, evaluations, receipts and rollback events in
 * any interleaving, and what a recorded event says about the examples behind the promotion.
 */
module PromotionRuns {
  import opened Prelude
  import opened PromotionEvidence
  import opened PromotionGate
  import opened PromotionLifecycle
  import opened PromotionComparison
  import McNemar

  // ---- what a comparison says about the examples ------------------------------------------------

  /** The two prediction documents and the partition behind one report. */
  datatype Trial = Trial(partition: Partition, baseline: PredictionDocument, candidate: PredictionDocument)

  /** This trial produced this report. */
  ghost predicate Produced(trial: Trial, report: Report) {
    && trial.partition.Verified() && ValidDocument(trial.baseline) && ValidDocument(trial.candidate)
    && Comparable(report.evidenceId, trial.partition, trial.baseline, trial.candidate)
    && Tallied(report, report.evidenceId, trial.partition, trial.baseline, trial.candidate)
  }

  /** A document answers an example with exactly its label. */
  ghost predicate AnswersRight(p: Partition, d: PredictionDocument, id: string) {
    id in p.labels &&
    exists i :: 0 <= i < |d.predictions| && d.predictions[i].exampleId == id && d.predictions[i].outputs == p.labels[id]
  }

  /** The examples of a role that `winner` answers right and `loser` does not. */
  ghost function WonAlone(
    p: Partition, role: Role, winner: PredictionDocument, loser: PredictionDocument): set<string>
  {
    set id | id in ElementsOf(p.Ids(role)) && AnswersRight(p, winner, id) && !AnswersRight(p, loser, id)
  }

  /** The examples of a role that a document answers right. */
  ghost function RightOf(p: Partition, role: Role, d: PredictionDocument): set<string> {
    set id | id in ElementsOf(p.Ids(role)) && AnswersRight(p, d, id)
  }

  lemma {:induction false} CorrectIsRight(p: Partition, d: PredictionDocument, id: string)
    requires ValidDocument(d)
    ensures Correct(id, p.labels, LastById(d.predictions)) <==> AnswersRight(p, d, id)
  {
    var answers := LastById(d.predictions);
    forall i | 0 <= i < |d.predictions|
      ensures d.predictions[i].exampleId in answers && answers[d.predictions[i].exampleId] == d.predictions[i].outputs
    {
      LastByIdFindsEach(d.predictions, i);
    }
    if id in answers {
      var i :| 0 <= i < |d.predictions| && d.predictions[i].exampleId == id;
    }
  }

  lemma {:induction false} Split(whole: set<string>, part: set<string>, rest: set<string>)
    requires part !! rest && part + rest == whole
    ensures |whole| == |part| + |rest|
  {
  }

  /** The examples on which the two documents fare as given. */
  ghost function Faring(p: Partition, role: Role, b: PredictionDocument, c: PredictionDocument, held: bool, won: bool)
    : set<string>
  {
    set id | id in ElementsOf(p.Ids(role)) && AnswersRight(p, b, id) == held && AnswersRight(p, c, id) == won
  }

  lemma {:induction false} CellIsFaring(
    p: Partition, role: Role, b: PredictionDocument, c: PredictionDocument, held: bool, won: bool)
    requires ValidDocument(b) && ValidDocument(c)
    ensures Contest(p.labels, LastById(b.predictions), LastById(c.predictions)).Cell(p.Ids(role), held, won)
            == Faring(p, role, b, c, held, won)
  {
    var contest := Contest(p.labels, LastById(b.predictions), LastById(c.predictions));
    forall id ensures contest.In(id, held, won) <==> AnswersRight(p, b, id) == held && AnswersRight(p, c, id) == won {
      CorrectIsRight(p, b, id);
      CorrectIsRight(p, c, id);
    }
  }

  lemma {:induction false} FaringIsWinning(p: Partition, role: Role, b: PredictionDocument, c: PredictionDocument)
    ensures Faring(p, role, b, c, false, true) == WonAlone(p, role, c, b)
    ensures Faring(p, role, b, c, true, false) == WonAlone(p, role, b, c)
    ensures |Faring(p, role, b, c, true, true)| + |Faring(p, role, b, c, false, true)| == |RightOf(p, role, c)|
  {
    Split(RightOf(p, role, c), Faring(p, role, b, c, true, true), Faring(p, role, b, c, false, true));
  }

  ghost predicate CountsExamples(report: Report, p: Partition, b: PredictionDocument, c: PredictionDocument) {
    && report.total == |ElementsOf(p.Ids(report.role))|
    && report.candidateOnly == |WonAlone(p, report.role, c, b)|
    && report.baselineOnly == |WonAlone(p, report.role, b, c)|
    && report.both + report.candidateOnly == |RightOf(p, report.role, c)|
  }

  /** The cells of a report count the examples that only one document, or the candidate, got right. */
  lemma {:induction false} CellsCountExamples(trial: Trial, report: Report)
    requires Produced(trial, report)
    ensures CountsExamples(report, trial.partition, trial.baseline, trial.candidate)
  {
    SizeOfElements(trial.partition.Ids(report.role));
    CellIsFaring(trial.partition, report.role, trial.baseline, trial.candidate, true, true);
    CellIsFaring(trial.partition, report.role, trial.baseline, trial.candidate, true, false);
    CellIsFaring(trial.partition, report.role, trial.baseline, trial.candidate, false, true);
    FaringIsWinning(trial.partition, report.role, trial.baseline, trial.candidate);
  }

  // ---- the steps ----------------------------------------------------------------------------------

  /** A comparison that was made: its inputs and the report it gave. */
  datatype Comparison = Comparison(trial: Trial, report: Report)

  /** Everything produced so far by any interleaving of the operations. */
  datatype Archive = Archive(
    comparisons: set<Comparison>, decisions: set<Decision>, receipts: set<Receipt>, events: set<Event>)

  ghost predicate Compares(s: Archive, s': Archive) {
    exists c: Comparison :: Produced(c.trial, c.report) && s' == s.(comparisons := s.comparisons + {c})
  }

  ghost predicate Reported(report: Report, comparisons: set<Comparison>) {
    exists c: Comparison :: c in comparisons && c.report == report
  }

  /** The evidence of a proposal comes from comparisons in the archive. */
  ghost predicate Backed(proposal: Proposal, comparisons: set<Comparison>) {
    forall report: Report :: report in proposal.evidence ==> Reported(report, comparisons)
  }

  ghost predicate Evaluates(h: Digests, s: Archive, s': Archive) {
    exists d: Decision ::
      && Backed(d.proposal, s.comparisons) && Evaluate(h, d.policy, d.proposal) == Ok(d)
      && s' == s.(decisions := s.decisions + {d})
  }

  ghost predicate Materializes(h: Digests, s: Archive, s': Archive) {
    exists r: Receipt ::
      && r.decision in s.decisions && Materialize(h, r.decision, r.rollback) == Ok(r)
      && s' == s.(receipts := s.receipts + {r})
  }

  ghost predicate Records(h: Digests, s: Archive, s': Archive) {
    exists r: Receipt, o: Observation, e: Event ::
      r in s.receipts && RecordRollback(h, r, o) == Ok(e) && s' == s.(events := s.events + {e})
  }

  ghost predicate Steps(h: Digests, s: Archive, s': Archive) {
    Compares(s, s') || Evaluates(h, s, s') || Materializes(h, s, s') || Records(h, s, s')
  }

  ghost function StepOf(h: Digests): (Archive, Archive) -> bool {
    (s, s') => Steps(h, s, s')
  }

  ghost predicate Chained<T>(step: (T, T) -> bool, xs: seq<T>) {
    forall i :: 0 <= i < |xs| - 1 ==> step(xs[i], xs[i + 1])
  }

  lemma {:induction false} ChainGrows<T>(step: (T, T) -> bool, xs: seq<T>, x: T)
    requires xs != [] && Chained(step, xs) && step(xs[|xs| - 1], x)
    ensures Chained(step, xs + [x])
  {
  }

  ghost predicate IsRun(h: Digests, run: seq<Archive>) {
    run != [] && run[0] == Archive({}, {}, {}, {}) && Chained(StepOf(h), run)
  }

  // ---- what every run keeps -----------------------------------------------------------------------

  ghost predicate All<T>(property: T -> bool, xs: set<T>) {
    forall x :: x in xs ==> property(x)
  }

  lemma {:induction false} AllGrows<T>(property: T -> bool, xs: set<T>, x: T)
    requires All(property, xs) && property(x)
    ensures All(property, xs + {x})
  {
  }

  ghost function ComparisonIsTrue(): Comparison -> bool {
    (c: Comparison) => Produced(c.trial, c.report)
  }

  ghost function DecisionIsBacked(h: Digests, comparisons: set<Comparison>): Decision -> bool {
    d => ValidDecision(h, d) && Backed(d.proposal, comparisons)
  }

  ghost function ReceiptIsValid(h: Digests, decisions: set<Decision>): Receipt -> bool {
    r => ValidReceipt(h, r) && r.decision in decisions
  }

  ghost function EventIsAccountable(h: Digests, receipts: set<Receipt>): Event -> bool {
    e => ValidEvent(e) && exists r :: r in receipts && Accountable(h, e, r)
  }

  ghost predicate Sound(h: Digests, s: Archive) {
    && All(ComparisonIsTrue(), s.comparisons)
    && All(DecisionIsBacked(h, s.comparisons), s.decisions)
    && All(ReceiptIsValid(h, s.decisions), s.receipts)
    && All(EventIsAccountable(h, s.receipts), s.events)
  }

  lemma {:induction false} StillBacked(proposal: Proposal, comparisons: set<Comparison>, c: Comparison)
    requires Backed(proposal, comparisons)
    ensures Backed(proposal, comparisons + {c})
  {
    forall report: Report | report in proposal.evidence ensures Reported(report, comparisons + {c}) {
      var kept: Comparison :| kept in comparisons && kept.report == report;
      assert kept in comparisons + {c};
    }
  }

  lemma {:induction false} MoreComparisonsKeepDecisions(h: Digests, s: Archive, c: Comparison)
    requires All(DecisionIsBacked(h, s.comparisons), s.decisions)
    ensures All(DecisionIsBacked(h, s.comparisons + {c}), s.decisions)
  {
    forall d | d in s.decisions ensures DecisionIsBacked(h, s.comparisons + {c})(d) {
      assert DecisionIsBacked(h, s.comparisons)(d);
      StillBacked(d.proposal, s.comparisons, c);
    }
  }

  lemma {:induction false} MoreDecisionsKeepReceipts(h: Digests, s: Archive, d: Decision)
    requires All(ReceiptIsValid(h, s.decisions), s.receipts)
    ensures All(ReceiptIsValid(h, s.decisions + {d}), s.receipts)
  {
    forall r | r in s.receipts ensures ReceiptIsValid(h, s.decisions + {d})(r) {
      assert ReceiptIsValid(h, s.decisions)(r);
    }
  }

  lemma {:induction false} MoreReceiptsKeepEvents(h: Digests, s: Archive, r: Receipt)
    requires All(EventIsAccountable(h, s.receipts), s.events)
    ensures All(EventIsAccountable(h, s.receipts + {r}), s.events)
  {
    forall e | e in s.events ensures EventIsAccountable(h, s.receipts + {r})(e) {
      assert EventIsAccountable(h, s.receipts)(e);
      var kept :| kept in s.receipts && Accountable(h, e, kept);
      assert kept in s.receipts + {r};
    }
  }

  lemma {:induction false} ComparisonKeepsSound(h: Digests, s: Archive, s': Archive)
    requires Sound(h, s) && Compares(s, s')
    ensures Sound(h, s')
  {
    var c: Comparison :| Produced(c.trial, c.report) && s' == s.(comparisons := s.comparisons + {c});
    AllGrows(ComparisonIsTrue(), s.comparisons, c);
    MoreComparisonsKeepDecisions(h, s, c);
  }

  lemma {:induction false} EvaluationKeepsSound(h: Digests, s: Archive, s': Archive)
    requires Sound(h, s) && Evaluates(h, s, s')
    ensures Sound(h, s')
  {
    var d: Decision :| Backed(d.proposal, s.comparisons) && Evaluate(h, d.policy, d.proposal) == Ok(d)
                       && s' == s.(decisions := s.decisions + {d});
    DecisionValidIffEvaluated(h, d);
    AllGrows(DecisionIsBacked(h, s.comparisons), s.decisions, d);
    MoreDecisionsKeepReceipts(h, s, d);
  }

  lemma {:induction false} MaterializationKeepsSound(h: Digests, s: Archive, s': Archive)
    requires Sound(h, s) && Materializes(h, s, s')
    ensures Sound(h, s')
  {
    var r: Receipt :| r.decision in s.decisions && Materialize(h, r.decision, r.rollback) == Ok(r)
                      && s' == s.(receipts := s.receipts + {r});
    ReceiptValidIffMaterialized(h, r);
    AllGrows(ReceiptIsValid(h, s.decisions), s.receipts, r);
    MoreReceiptsKeepEvents(h, s, r);
  }

  lemma {:induction false} RecordingKeepsSound(h: Digests, s: Archive, s': Archive)
    requires Sound(h, s) && Records(h, s, s')
    ensures Sound(h, s')
  {
    var r, o, e :| r in s.receipts && RecordRollback(h, r, o) == Ok(e) && s' == s.(events := s.events + {e});
    RollbackIsAccountable(h, r, o, e);
    assert EventIsAccountable(h, s.receipts)(e);
    AllGrows(EventIsAccountable(h, s.receipts), s.events, e);
  }

  /** In every state of every run all artifacts validate and refer to archived ones. */
  lemma {:induction false} RunsAreSound(h: Digests, run: seq<Archive>, i: nat)
    requires IsRun(h, run) && i < |run|
    ensures Sound(h, run[i])
  {
    if i > 0 {
      RunsAreSound(h, run, i - 1);
      var j := i - 1;
      assert StepOf(h)(run[j], run[j + 1]);
      var s, s' := run[j], run[j + 1];
      if Compares(s, s') {
        ComparisonKeepsSound(h, s, s');
      } else if Evaluates(h, s, s') {
        EvaluationKeepsSound(h, s, s');
      } else if Materializes(h, s, s') {
        MaterializationKeepsSound(h, s, s');
      } else {
        RecordingKeepsSound(h, s, s');
      }
    }
  }

  // ---- what a rollback undoes ---------------------------------------------------------------------

  /** What the counts of a partition must be for the rule to be met. */
  predicate Beats(rule: Rule, total: nat, right: nat, gained: nat, lost: nat) {
    && total > 0 && total >= rule.minTotal && gained > lost && gained + lost >= rule.minDiscordant
    && Ratio(right, total) >= rule.minCandidateScore && Ratio(gained - lost, total) >= rule.minImprovement
    && McNemar.Tail(gained, lost) <= rule.maxPValue
  }

  /** Documents of exactly these two variants answer all examples of a verified partition. */
  ghost predicate Faces(trial: Trial, role: Role, baseline: Variant, candidate: Variant) {
    var p, b, c := trial.partition, trial.baseline, trial.candidate;
    && p.Verified() && b.variant == baseline && c.variant == candidate && b.role == c.role == role
    && ExampleIds(b.predictions) == ElementsOf(p.Ids(role)) == ExampleIds(c.predictions)
  }

  /**
   * The rule was met on the examples themselves: the candidate is right on as many as the
   * rule wants, and alone right on strictly more than the baseline alone, by the margin and p-value asked for.
   */
  ghost predicate WonOnExamples(rule: Rule, trial: Trial, baseline: Variant, candidate: Variant) {
    var p, b, c := trial.partition, trial.baseline, trial.candidate;
    && Faces(trial, rule.role, baseline, candidate)
    && Beats(rule, |ElementsOf(p.Ids(rule.role))|, |RightOf(p, rule.role, c)|,
             |WonAlone(p, rule.role, c, b)|, |WonAlone(p, rule.role, b, c)|)
  }

  /** This comparison is the evidence on which the rule was met, on the partition its report names. */
  ghost predicate Earns(c: Comparison, rule: Rule, proposal: Proposal) {
    && Produced(c.trial, c.report)
    && c.report in proposal.evidence && c.report.role == rule.role
    && c.trial.partition.commitment == c.report.commitment
    && WonOnExamples(rule, c.trial, proposal.baseline, proposal.candidate)
  }

  /** One of these comparisons is, and so is any other that gave evidence for the rule. */
  ghost predicate RuleIsEarned(rule: Rule, proposal: Proposal, comparisons: set<Comparison>) {
    && (exists c :: c in comparisons && Earns(c, rule, proposal))
    && forall c :: c in comparisons && c.report in proposal.evidence && c.report.role == rule.role ==>
         Earns(c, rule, proposal)
  }

  lemma {:induction false} PassingBeats(rule: Rule, report: Report)
    requires Passes(rule, report)
    ensures Beats(rule, report.total, report.both + report.candidateOnly, report.candidateOnly, report.baselineOnly)
  {
  }

  lemma {:induction false} ProducedFaces(trial: Trial, report: Report)
    requires Produced(trial, report)
    ensures Faces(trial, report.role, report.baseline, report.candidate)
  {
  }

  lemma {:induction false} PassedCountsBeat(
    rule: Rule, report: Report, p: Partition, b: PredictionDocument, c: PredictionDocument)
    requires CountsExamples(report, p, b, c) && Passes(rule, report) && report.role == rule.role
    ensures Beats(rule, |ElementsOf(p.Ids(rule.role))|, |RightOf(p, rule.role, c)|,
                  |WonAlone(p, rule.role, c, b)|, |WonAlone(p, rule.role, b, c)|)
  {
    PassingBeats(rule, report);
  }

  lemma {:induction false} PassedReportIsWon(rule: Rule, trial: Trial, report: Report)
    requires Produced(trial, report) && Passes(rule, report) && report.role == rule.role
    ensures WonOnExamples(rule, trial, report.baseline, report.candidate)
  {
    CellsCountExamples(trial, report);
    ProducedFaces(trial, report);
    PassedCountsBeat(rule, report, trial.partition, trial.baseline, trial.candidate);
  }

  lemma {:induction false} EvidenceNamesItsVariants(proposal: Proposal, report: Report)
    requires report in proposal.evidence
    ensures report.baseline == proposal.baseline && report.candidate == proposal.candidate
  {
    var m :| 0 <= m < |proposal.evidence| && proposal.evidence[m] == report;
  }

  lemma {:induction false} PassingComparisonEarns(c: Comparison, rule: Rule, proposal: Proposal)
    requires Produced(c.trial, c.report) && c.report in proposal.evidence && c.report.role == rule.role
    requires Passes(rule, c.report)
    ensures Earns(c, rule, proposal)
  {
    EvidenceNamesItsVariants(proposal, c.report);
    PassedReportIsWon(rule, c.trial, c.report);
  }

  lemma {:induction false} PassingRuleIsEarned(rule: Rule, proposal: Proposal, comparisons: set<Comparison>)
    requires Holds(proposal, rule) && Backed(proposal, comparisons) && All(ComparisonIsTrue(), comparisons)
    ensures RuleIsEarned(rule, proposal, comparisons)
  {
    var report: Report :| report in proposal.evidence && report.role == rule.role && Passes(rule, report);
    var made := ComparisonFor(report, comparisons, proposal);
    forall c | c in comparisons && c.report in proposal.evidence && c.report.role == rule.role
      ensures Earns(c, rule, proposal)
    {
      EvidenceComparisonEarns(c, rule, proposal, report, comparisons);
    }
  }

  lemma {:induction false} ComparisonFor(report: Report, comparisons: set<Comparison>, proposal: Proposal)
    returns (c: Comparison)
    requires report in proposal.evidence && Backed(proposal, comparisons)
    ensures c in comparisons && c.report == report
  {
    assert Reported(report, comparisons);
    c :| c in comparisons && c.report == report;
  }

  lemma {:induction false} EvidenceComparisonEarns(
    c: Comparison, rule: Rule, proposal: Proposal, report: Report, comparisons: set<Comparison>)
    requires c in comparisons && All(ComparisonIsTrue(), comparisons)
    requires c.report in proposal.evidence && c.report.role == rule.role
    requires report in proposal.evidence && report.role == rule.role && Passes(rule, report)
    ensures Earns(c, rule, proposal)
  {
    assert ComparisonIsTrue()(c);
    OneReportPerRole(proposal, c.report, report);
    PassingComparisonEarns(c, rule, proposal);
  }

  /**
   * Every event of every run undoes a promotion, from the promoted variant back to the one it beat, and
   * for each rule of its policy the run made a comparison whose report is in the evidence and whose
   * two documents, on the partition the report names, won the rule example by example; any other
   * comparison behind that evidence did too.
   */
  lemma {:induction false} EveryRollbackUndoesAWin(h: Digests, run: seq<Archive>, i: nat, e: Event)
    requires IsRun(h, run) && i < |run| && e in run[i].events
    ensures exists r ::
              && r in run[i].receipts && Accountable(h, e, r)
              && e.from == r.decision.candidate && e.to == r.decision.baseline
              && forall k :: 0 <= k < |r.decision.policy.rules| ==>
                   RuleIsEarned(r.decision.policy.rules[k], r.decision.proposal, run[i].comparisons)
  {
    RunsAreSound(h, run, i);
    var s := run[i];
    assert EventIsAccountable(h, s.receipts)(e);
    var r :| r in s.receipts && Accountable(h, e, r);
    assert ReceiptIsValid(h, s.decisions)(r);
    assert DecisionIsBacked(h, s.comparisons)(r.decision);
    forall k | 0 <= k < |r.decision.policy.rules|
      ensures RuleIsEarned(r.decision.policy.rules[k], r.decision.proposal, s.comparisons)
    {
      PassingRuleIsEarned(r.decision.policy.rules[k], r.decision.proposal, s.comparisons);
    }
  }

  /** The counts and names of a report determine its scores. */
  lemma {:induction false} ScoresFollow(a: Report, b: Report)
    requires a.evidenceId == b.evidenceId && a.role == b.role && a.commitment == b.commitment
    requires a.baseline == b.baseline && a.candidate == b.candidate && a.total == b.total && a.both == b.both
    requires a.baselineOnly == b.baselineOnly && a.candidateOnly == b.candidateOnly && a.neither == b.neither
    ensures a == b
  {
  }

  lemma {:induction false} CountsAreDetermined(trial: Trial, evidenceId: string, a: Report, b: Report)
    requires Tallied(a, evidenceId, trial.partition, trial.baseline, trial.candidate)
    requires Tallied(b, evidenceId, trial.partition, trial.baseline, trial.candidate)
    ensures a.evidenceId == b.evidenceId && a.role == b.role && a.commitment == b.commitment
    ensures a.baseline == b.baseline && a.candidate == b.candidate && a.total == b.total && a.both == b.both
    ensures a.baselineOnly == b.baselineOnly && a.candidateOnly == b.candidateOnly && a.neither == b.neither
  {
  }

  /** The inputs of a comparison leave no choice: with the evidence id they determine the report. */
  lemma {:induction false} ReportIsDetermined(trial: Trial, a: Report, b: Report)
    requires Produced(trial, a) && Produced(trial, b) && a.evidenceId == b.evidenceId
    ensures a == b
  {
    CountsAreDetermined(trial, a.evidenceId, a, b);
    ScoresFollow(a, b);
  }

  // ---- runs that reach an event ---------------------------------------------------------------------

  /** A trigger that any finite, nonnegative observation of one sample fires. */
  const TRIGGER := Trigger("t", Gte, 0.0, 1, 1)

  const OBSERVATION := Observation("e", "t", Finite(0.0), 1, "a", 0, None)

  lemma {:induction false} PromotionHasReceipt(h: Digests, d: Decision) returns (r: Receipt)
    requires ValidDecision(h, d) && d.kind == Promote
    ensures r.decision == d && Materialize(h, d, r.rollback) == Ok(r) && r.rollback.triggers == [TRIGGER]
  {
    var plan := Plan("r", h.decision(d), d.candidate, d.baseline, [TRIGGER]);
    r := Materialize(h, d, plan).value;
  }

  lemma {:induction false} ReceiptHasEvent(h: Digests, r: Receipt) returns (e: Event)
    requires ValidReceipt(h, r) && r.rollback.triggers == [TRIGGER]
    ensures RecordRollback(h, r, OBSERVATION) == Ok(e)
  {
    var triggers := r.rollback.triggers;
    assert triggers[0] == TRIGGER && TRIGGER in triggers;
    RecordSucceedsIff(h, r, OBSERVATION);
    e := RecordRollback(h, r, OBSERVATION).value;
  }

  lemma {:induction false} RunGrows(h: Digests, run: seq<Archive>, next: Archive)
    requires IsRun(h, run) && Steps(h, run[|run| - 1], next)
    ensures IsRun(h, run + [next])
  {
    ChainGrows(StepOf(h), run, next);
  }

  lemma {:induction false} CompareStep(h: Digests, s: Archive, c: Comparison)
    requires Produced(c.trial, c.report)
    ensures Steps(h, s, s.(comparisons := s.comparisons + {c}))
  {
    assert Compares(s, s.(comparisons := s.comparisons + {c}));
  }

  lemma {:induction false} EvaluateStep(h: Digests, s: Archive, d: Decision)
    requires Backed(d.proposal, s.comparisons) && Evaluate(h, d.policy, d.proposal) == Ok(d)
    ensures Steps(h, s, s.(decisions := s.decisions + {d}))
  {
    assert Evaluates(h, s, s.(decisions := s.decisions + {d}));
  }

  lemma {:induction false} MaterializeStep(h: Digests, s: Archive, r: Receipt)
    requires r.decision in s.decisions && Materialize(h, r.decision, r.rollback) == Ok(r)
    ensures Steps(h, s, s.(receipts := s.receipts + {r}))
  {
    assert Materializes(h, s, s.(receipts := s.receipts + {r}));
  }

  lemma {:induction false} RecordStep(h: Digests, s: Archive, r: Receipt, o: Observation, e: Event)
    requires r in s.receipts && RecordRollback(h, r, o) == Ok(e)
    ensures Steps(h, s, s.(events := s.events + {e}))
  {
    assert Records(h, s, s.(events := s.events + {e}));
  }

  lemma {:induction false} PromotionHasEvent(h: Digests, d: Decision) returns (r: Receipt, e: Event)
    requires ValidDecision(h, d) && d.kind == Promote
    ensures r.decision == d && Materialize(h, d, r.rollback) == Ok(r)
    ensures RecordRollback(h, r, OBSERVATION) == Ok(e) && Accountable(h, e, r)
  {
    r := PromotionHasReceipt(h, d);
    ReceiptValidIffMaterialized(h, r);
    e := ReceiptHasEvent(h, r);
    RollbackIsAccountable(h, r, OBSERVATION, e);
  }

  lemma {:induction false} ReachedIsValid(h: Digests, run: seq<Archive>, d: Decision)
    requires IsRun(h, run) && d in run[|run| - 1].decisions
    ensures ValidDecision(h, d)
  {
    RunsAreSound(h, run, |run| - 1);
    assert DecisionIsBacked(h, run[|run| - 1].comparisons)(d);
  }

  /** Any promotion a run has reached can still be rolled back, in two more steps. */
  lemma {:induction false} PromotionsCanBeRolledBack(h: Digests, run: seq<Archive>, d: Decision)
    returns (longer: seq<Archive>, r: Receipt, e: Event)
    requires IsRun(h, run) && d in run[|run| - 1].decisions && d.kind == Promote
    ensures IsRun(h, longer) && run <= longer && |longer| == |run| + 2
    ensures e in longer[|longer| - 1].events && r.decision == d && Accountable(h, e, r)
  {
    ReachedIsValid(h, run, d);
    r, e := PromotionHasEvent(h, d);
    var next := Materialized(h, run, r);
    longer := Recorded(h, next, r, e);
  }

  lemma {:induction false} Materialized(h: Digests, run: seq<Archive>, r: Receipt) returns (longer: seq<Archive>)
    requires IsRun(h, run) && r.decision in run[|run| - 1].decisions
    requires Materialize(h, r.decision, r.rollback) == Ok(r)
    ensures IsRun(h, longer) && run <= longer && |longer| == |run| + 1 && r in longer[|longer| - 1].receipts
  {
    var s := run[|run| - 1];
    MaterializeStep(h, s, r);
    RunGrows(h, run, s.(receipts := s.receipts + {r}));
    longer := run + [s.(receipts := s.receipts + {r})];
  }

  lemma {:induction false} Recorded(h: Digests, run: seq<Archive>, r: Receipt, e: Event) returns (longer: seq<Archive>)
    requires IsRun(h, run) && r in run[|run| - 1].receipts && RecordRollback(h, r, OBSERVATION) == Ok(e)
    ensures IsRun(h, longer) && run <= longer && |longer| == |run| + 1 && e in longer[|longer| - 1].events
  {
    var s := run[|run| - 1];
    RecordStep(h, s, r, OBSERVATION, e);
    RunGrows(h, run, s.(events := s.events + {e}));
    longer := run + [s.(events := s.events + {e})];
  }

  function Proposing(report: Report): Proposal {
    var proposal := Proposal("p", report.baseline, report.candidate, [report]);
    proposal
  }

  /** The weakest rule there is: it asks for a lead. */
  function Lenient(role: Role): Policy {
    var policy := Policy("p", [Rule(role, 1, 0.0, 0.0, 1, 1.0)]);
    policy
  }

  lemma {:induction false} RatioIsNonNegative(part: int, total: int)
    requires part >= 0 && total > 0
    ensures Ratio(part, total) >= 0.0
  {
  }

  lemma {:induction false} LeadPasses(report: Report)
    requires report.candidateOnly > report.baselineOnly
    ensures Passes(Rule(report.role, 1, 0.0, 0.0, 1, 1.0), report)
  {
    RatioIsNonNegative(report.both + report.candidateOnly, report.total);
    RatioIsNonNegative(report.candidateOnly - report.baselineOnly, report.total);
    LooseCeilingIsNoConstraint(Rule(report.role, 1, 0.0, 0.0, 1, 1.0), report);
  }

  lemma {:induction false} LeadIsPromoted(h: Digests, report: Report) returns (d: Decision)
    requires report.candidateOnly > report.baselineOnly
    ensures Evaluate(h, Lenient(report.role), Proposing(report)) == Ok(d)
    ensures d.kind == Promote && d.policy == Lenient(report.role) && d.proposal == Proposing(report)
  {
    var policy, proposal := Lenient(report.role), Proposing(report);
    assert policy.rules[0].role == report.role && proposal.evidence[0] == report && report in proposal.evidence;
    assert RuleRoles(policy.rules) == {report.role} && EvidenceRoles(proposal.evidence) == {report.role};
    EvaluateFailsIffRolesDiffer(h, policy, proposal);
    d := Evaluate(h, policy, proposal).value;
    DecisionValidIffEvaluated(h, d);
    PromoteMeansEveryRulePasses(h, d);
    LeadPasses(report);
    assert Holds(proposal, policy.rules[0]);
  }

  /** One example, answered right by the candidate alone. */
  function SampleTrial(): Trial {
    Trial(Partition(Commitment("d", "p", "", ""), ["x"], [], map["x" := map["y" := "1"]], {"y"}),
          PredictionDocument(Variant("b", "0"), "", "", Validation, [Prediction("x", map["y" := "0"])]),
          PredictionDocument(Variant("c", "1"), "", "", Validation, [Prediction("x", map["y" := "1"])]))
  }

  function SampleReport(): Report {
    Report("e", Validation, Commitment("d", "p", "", ""), Variant("b", "0"), Variant("c", "1"), 1, 0, 0, 1, 0, 0.0, 1.0)
  }

  lemma {:induction false} OnePrediction(x: Prediction)
    ensures LastById([x]) == map[x.exampleId := x.outputs] && ExampleIds([x]) == {x.exampleId}
  {
    assert [x][..0] == [] && [x][0] == x;
  }

  lemma {:induction false} SampleCells()
    ensures var p, b, c := SampleTrial().partition, SampleTrial().baseline, SampleTrial().candidate;
            var contest := Contest(p.labels, LastById(b.predictions), LastById(c.predictions));
            && contest.Cell(["x"], true, true) == {} && contest.Cell(["x"], true, false) == {}
            && contest.Cell(["x"], false, true) == {"x"} && contest.Cell(["x"], false, false) == {}
  {
    OnePrediction(Prediction("x", map["y" := "0"]));
    OnePrediction(Prediction("x", map["y" := "1"]));
    var wrong, right := map["y" := "0"], map["y" := "1"];
    assert wrong["y"] != right["y"];
    assert ["x"][0] == "x";
  }

  lemma {:induction false} SampleIsProduced()
    ensures Produced(SampleTrial(), SampleReport())
  {
    SampleCells();
    OnePrediction(Prediction("x", map["y" := "0"]));
    OnePrediction(Prediction("x", map["y" := "1"]));
    assert SampleTrial().partition.Ids(Validation) == ["x"];
    assert ["x"][0] == "x" && ElementsOf(["x"]) == {"x"};
  }

  lemma {:induction false} SomeComparisonIsLed() returns (c: Comparison)
    ensures Produced(c.trial, c.report) && c.report.candidateOnly > c.report.baselineOnly
  {
    c := Comparison(SampleTrial(), SampleReport());
    SampleIsProduced();
  }

  lemma {:induction false} Compared(h: Digests, c: Comparison) returns (run: seq<Archive>)
    requires Produced(c.trial, c.report)
    ensures IsRun(h, run) && |run| == 2 && c in run[1].comparisons
  {
    var start := Archive({}, {}, {}, {});
    var compared := start.(comparisons := start.comparisons + {c});
    CompareStep(h, start, c);
    RunGrows(h, [start], compared);
    run := [start] + [compared];
  }

  lemma {:induction false} Decided(h: Digests, run: seq<Archive>, c: Comparison, d: Decision)
    returns (longer: seq<Archive>)
    requires IsRun(h, run) && c in run[|run| - 1].comparisons && d.proposal.evidence == [c.report]
    requires Evaluate(h, d.policy, d.proposal) == Ok(d)
    ensures IsRun(h, longer) && |longer| == |run| + 1 && d in longer[|longer| - 1].decisions
  {
    var s := run[|run| - 1];
    var decided := s.(decisions := s.decisions + {d});
    assert Reported(c.report, s.comparisons);
    EvaluateStep(h, s, d);
    RunGrows(h, run, decided);
    longer := run + [decided];
  }

  /** A comparison that the candidate leads is the start of a run of four steps to an event. */
  lemma {:induction false} LeadReachesAnEvent(h: Digests, c: Comparison) returns (run: seq<Archive>)
    requires Produced(c.trial, c.report) && c.report.candidateOnly > c.report.baselineOnly
    ensures IsRun(h, run) && |run| == 5 && run[4].events != {}
  {
    var d := LeadIsPromoted(h, c.report);
    var first := Compared(h, c);
    var second := Decided(h, first, c, d);
    var r, e;
    run, r, e := PromotionsCanBeRolledBack(h, second, d);
    assert e in run[4].events;
  }

  /** Whatever the digests, some run compares, evaluates, materializes and records an event. */
  lemma {:induction false} EventsAreReachable(h: Digests) returns (run: seq<Archive>)
    ensures IsRun(h, run) && |run| == 5 && run[4].events != {}
  {
    var c := SomeComparisonIsLed();
    run := LeadReachesAnEvent(h, c);
  }
}
