/** What the promotion gate asks, cleared of division, what it says, and what a comparison asks. */
module GateMeaning {
  import opened Prelude
  import opened PromotionEvidence
  import opened PromotionGate
  import opened PromotionLifecycle
  import opened PromotionComparison
  import McNemar

  // ---- the conditions of a rule ---------------------------------------------------------------------

  /** The rule is met by the four cells. */
  predicate Meets(rule: Rule, r: Report) {
    && r.total >= rule.minTotal
    && r.candidateOnly > r.baselineOnly
    && (r.both + r.candidateOnly) as real >= rule.minCandidateScore * r.total as real
    && (r.candidateOnly - r.baselineOnly) as real >= rule.minImprovement * r.total as real
    && r.candidateOnly + r.baselineOnly >= rule.minDiscordant
    && McNemar.Tail(r.candidateOnly, r.baselineOnly) <= rule.maxPValue
  }

  lemma {:induction false} Times(quotient: real, bound: real, total: real)
    requires total > 0.0
    ensures quotient >= bound <==> quotient * total >= bound * total
  {
    if quotient >= bound {
      assert (quotient - bound) * total >= 0.0;
    } else {
      assert (bound - quotient) * total > 0.0;
    }
  }

  lemma {:induction false} RatioAtLeast(part: int, total: int, bound: real)
    requires total > 0
    ensures Ratio(part, total) >= bound <==> part as real >= bound * total as real
  {
    var quotient := Ratio(part, total);
    assert quotient * total as real == part as real;
    Times(quotient, bound, total as real);
  }

  lemma {:induction false} PassesIffMeets(rule: Rule, r: Report)
    ensures Passes(rule, r) <==> Meets(rule, r)
  {
    RatioAtLeast(r.both + r.candidateOnly, r.total, rule.minCandidateScore);
    RatioAtLeast(r.candidateOnly - r.baselineOnly, r.total, rule.minImprovement);
  }

  /** A valid decision promotes exactly when each rule is met by a report of its role. */
  lemma {:induction false} PromotesIff(h: Digests, d: Decision)
    requires ValidDecision(h, d)
    ensures d.kind == Promote <==> forall i :: 0 <= i < |d.policy.rules| ==> MetBy(d.policy.rules[i], d.proposal)
  {
    PromoteMeansEveryRulePasses(h, d);
    forall i | 0 <= i < |d.policy.rules|
      ensures Holds(d.proposal, d.policy.rules[i]) <==> MetBy(d.policy.rules[i], d.proposal)
    {
      HoldsIffMet(d.proposal, d.policy.rules[i]);
    }
  }

  ghost predicate MetBy(rule: Rule, proposal: Proposal) {
    exists r: Report :: r in proposal.evidence && r.role == rule.role && Meets(rule, r)
  }

  lemma {:induction false} HoldsIffMet(proposal: Proposal, rule: Rule)
    ensures Holds(proposal, rule) <==> MetBy(rule, proposal)
  {
    forall r: Report ensures Passes(rule, r) <==> Meets(rule, r) {
      PassesIffMeets(rule, r);
    }
  }

  // ---- the reasons of a refusal ---------------------------------------------------------------------

  /** A reason given for this rule and these cells, with its numbers. */
  predicate Told(rule: Rule, r: Report, reason: Reason) {
    match reason
    case TotalBelow(total, required) => r.total < rule.minTotal && total == r.total && required == rule.minTotal
    case NotOutperforming => r.candidateOnly <= r.baselineOnly
    case ScoreBelow(score, floor) =>
      && Ratio(r.both + r.candidateOnly, r.total) < rule.minCandidateScore
      && score == r.candidateScore && floor == rule.minCandidateScore
    case ImprovementBelow(improvement, floor) =>
      && Ratio(r.candidateOnly - r.baselineOnly, r.total) < rule.minImprovement
      && improvement == Ratio(r.candidateOnly - r.baselineOnly, r.total) && floor == rule.minImprovement
    case DiscordantBelow(pairs, required) =>
      && r.candidateOnly + r.baselineOnly < rule.minDiscordant
      && pairs == r.candidateOnly + r.baselineOnly && required == rule.minDiscordant
    case PValueAbove(p, allowed) =>
      && McNemar.Tail(r.candidateOnly, r.baselineOnly) > rule.maxPValue
      && p == McNemar.Tail(r.candidateOnly, r.baselineOnly) && allowed == rule.maxPValue
  }

  lemma {:induction false} Appended(reasons: seq<Reason>, condition: bool, next: Reason, reason: Reason)
    ensures reason in AppendIf(reasons, condition, next) <==> reason in reasons || (condition && reason == next)
  {
  }

  lemma {:induction false} ReasonsAre(rule: Rule, r: Report, reason: Reason, score: real, improvement: real, p: real)
    requires score == Ratio(r.both + r.candidateOnly, r.total)
    requires improvement == Ratio(r.candidateOnly - r.baselineOnly, r.total)
    requires p == McNemar.Tail(r.candidateOnly, r.baselineOnly)
    ensures reason in Reasons(rule, r) <==>
              || (r.total < rule.minTotal && reason == TotalBelow(r.total, rule.minTotal))
              || (improvement <= 0.0 && reason == NotOutperforming)
              || (score < rule.minCandidateScore && reason == ScoreBelow(r.candidateScore, rule.minCandidateScore))
              || (improvement < rule.minImprovement && reason == ImprovementBelow(improvement, rule.minImprovement))
              || (r.candidateOnly + r.baselineOnly < rule.minDiscordant
                  && reason == DiscordantBelow(r.candidateOnly + r.baselineOnly, rule.minDiscordant))
              || (p > rule.maxPValue && reason == PValueAbove(p, rule.maxPValue))
  {
    var discordant := r.candidateOnly + r.baselineOnly;
    var r1 := AppendIf([], r.total < rule.minTotal, TotalBelow(r.total, rule.minTotal));
    var r2 := AppendIf(r1, improvement <= 0.0, NotOutperforming);
    var r3 := AppendIf(r2, score < rule.minCandidateScore, ScoreBelow(r.candidateScore, rule.minCandidateScore));
    var r4 := AppendIf(r3, improvement < rule.minImprovement, ImprovementBelow(improvement, rule.minImprovement));
    var r5 := AppendIf(r4, discordant < rule.minDiscordant, DiscordantBelow(discordant, rule.minDiscordant));
    Appended([], r.total < rule.minTotal, TotalBelow(r.total, rule.minTotal), reason);
    Appended(r1, improvement <= 0.0, NotOutperforming, reason);
    Appended(r2, score < rule.minCandidateScore, ScoreBelow(r.candidateScore, rule.minCandidateScore), reason);
    Appended(r3, improvement < rule.minImprovement, ImprovementBelow(improvement, rule.minImprovement), reason);
    Appended(r4, discordant < rule.minDiscordant, DiscordantBelow(discordant, rule.minDiscordant), reason);
    Appended(r5, p > rule.maxPValue, PValueAbove(p, rule.maxPValue), reason);
  }

  /** Which reasons are given. */
  lemma {:induction false} ReasonsTell(rule: Rule, r: Report, reason: Reason)
    ensures reason in Reasons(rule, r) <==> Told(rule, r, reason)
  {
    var score := Ratio(r.both + r.candidateOnly, r.total);
    var improvement := Ratio(r.candidateOnly - r.baselineOnly, r.total);
    ReasonsAre(rule, r, reason, score, improvement, McNemar.Tail(r.candidateOnly, r.baselineOnly));
    RatioOrder(r.candidateOnly - r.baselineOnly, 0, r.total);
  }

  /** The numbers a check carries. */
  lemma {:induction false} CheckTells(rule: Rule, r: Report, digest: Report -> string)
    ensures var check := Judge(digest)(rule, r);
            && check.role == rule.role && check.evidenceId == r.evidenceId && check.evidenceSha256 == digest(r)
            && (check.passed <==> Meets(rule, r)) && check.total == r.total
            && check.baselineScore == r.baselineScore && check.candidateScore == r.candidateScore
            && check.improvement * r.total as real == (r.candidateOnly - r.baselineOnly) as real
            && check.discordant == r.candidateOnly + r.baselineOnly
            && check.candidateOnly == r.candidateOnly && check.baselineOnly == r.baselineOnly
            && check.pValue == McNemar.Tail(r.candidateOnly, r.baselineOnly)
            && forall reason :: reason in check.reasons <==> Told(rule, r, reason)
  {
    ReasonsEmptyIffPasses(rule, r);
    PassesIffMeets(rule, r);
    var gain := r.candidateOnly - r.baselineOnly;
    assert Ratio(gain, r.total) * r.total as real == gain as real;
    forall reason ensures reason in Reasons(rule, r) <==> Told(rule, r, reason) {
      ReasonsTell(rule, r, reason);
    }
  }

  // ---- when two documents can be compared -------------------------------------------------------------

  /** The document answers each of these examples, no others, and with exactly these output fields. */
  ghost predicate Answers(d: PredictionDocument, ids: seq<string>, fields: set<string>) {
    && (forall id :: id in ids <==> exists i :: 0 <= i < |d.predictions| && d.predictions[i].exampleId == id)
    && forall i :: 0 <= i < |d.predictions| ==> d.predictions[i].outputs.Keys == fields
  }

  lemma {:induction false} MapsIffAnswers(d: PredictionDocument, ids: seq<string>, fields: set<string>)
    ensures PredictionMap(d, ElementsOf(ids), fields).Ok? <==> Answers(d, ids, fields)
  {
    forall id ensures id in ElementsOf(ids) <==> id in ids {
      if id in ids {
        var i :| 0 <= i < |ids| && ids[i] == id;
      }
    }
    forall id
      ensures id in ExampleIds(d.predictions) <==>
                exists i :: 0 <= i < |d.predictions| && d.predictions[i].exampleId == id
    {
    }
  }

  /** A comparison succeeds for two different variants on one partition of one dataset, each answering all of it. */
  lemma {:induction false} ComparableIff(
    evidenceId: string, p: Partition, b: PredictionDocument, c: PredictionDocument)
    ensures Comparable(evidenceId, p, b, c) <==>
              && IsStableId(evidenceId) && b.role == c.role
              && b.variant.id != c.variant.id && b.variant.sha256 != c.variant.sha256
              && b.publicDataset == p.commitment.publicDataset && c.publicDataset == p.commitment.publicDataset
              && b.publicPartition == p.commitment.publicPartition && c.publicPartition == p.commitment.publicPartition
              && Answers(b, p.Ids(b.role), p.outputFields) && Answers(c, p.Ids(b.role), p.outputFields)
  {
    MapsIffAnswers(b, p.Ids(b.role), p.outputFields);
    MapsIffAnswers(c, p.Ids(b.role), p.outputFields);
  }
}
