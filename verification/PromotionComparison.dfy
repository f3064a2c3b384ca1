/** Paired comparison of two prediction documents (promotion_comparison.py). */
module PromotionComparison {
  import opened Prelude
  import opened PromotionEvidence

  /** Output fields with the canonical JSON text of their values. */
  type Outputs = map<string, string>

  datatype Prediction = Prediction(exampleId: string, outputs: Outputs)

  datatype PredictionDocument = PredictionDocument(
    variant: Variant, publicDataset: string, publicPartition: string, role: Role,
    predictions: seq<Prediction>)

  predicate ValidDocument(d: PredictionDocument) {
    && 1 <= |d.predictions| <= 10_000
    && forall i, j :: 0 <= i < j < |d.predictions| ==> d.predictions[i].exampleId != d.predictions[j].exampleId
  }

  /** A verified dataset with its partition manifest: every partition id names a labelled example. */
  datatype Partition = Partition(
    commitment: Commitment, validation: seq<string>, sealedTest: seq<string>,
    labels: map<string, Outputs>, outputFields: set<string>)
  {
    function Ids(role: Role): seq<string> {
      if role == Validation then validation else sealedTest
    }

    predicate Verified() {
      forall role ::
        && (forall i, j :: 0 <= i < j < |Ids(role)| ==> Ids(role)[i] != Ids(role)[j])
        && forall i :: 0 <= i < |Ids(role)| ==> Ids(role)[i] in labels
    }
  }

  datatype Error =
    | UnstableEvidenceId | RoleMismatch | SameVariant | DatasetMismatch | PartitionMismatch
    | MissingExamples | UnexpectedExamples | WrongOutputFields

  function ExampleIds(predictions: seq<Prediction>): set<string> {
    set i | 0 <= i < |predictions| :: predictions[i].exampleId
  }

  /** `_prediction_map`: the outputs by example id, or why the document does not fit the partition. */
  function PredictionMap(d: PredictionDocument, expected: set<string>, fields: set<string>)
    : Result<map<string, Outputs>, Error>
  {
    if !(expected <= ExampleIds(d.predictions)) then Err(MissingExamples)
    else if !(ExampleIds(d.predictions) <= expected) then Err(UnexpectedExamples)
    else if exists i :: 0 <= i < |d.predictions| && d.predictions[i].outputs.Keys != fields then Err(WrongOutputFields)
    else Ok(LastById(d.predictions))
  }

  /** A dict comprehension keyed by example id: a later prediction replaces an earlier one. */
  function LastById(predictions: seq<Prediction>): (m: map<string, Outputs>)
    ensures m.Keys == ExampleIds(predictions)
  {
    if predictions == [] then map[]
    else
      var last := predictions[|predictions| - 1];
      LastById(predictions[..|predictions| - 1])[last.exampleId := last.outputs]
  }

  lemma {:induction false} LastByIdFindsEach(predictions: seq<Prediction>, i: nat)
    requires i < |predictions|
    requires forall j, k :: 0 <= j < k < |predictions| ==> predictions[j].exampleId != predictions[k].exampleId
    ensures LastById(predictions)[predictions[i].exampleId] == predictions[i].outputs
  {
    if i < |predictions| - 1 {
      LastByIdFindsEach(predictions[..|predictions| - 1], i);
    }
  }

  predicate Correct(id: string, labels: map<string, Outputs>, answers: map<string, Outputs>) {
    id in labels && id in answers && answers[id] == labels[id]
  }

  /** Two documents judged against one set of labels. */
  datatype Contest = Contest(
    labels: map<string, Outputs>, baseline: map<string, Outputs>, candidate: map<string, Outputs>)
  {
    predicate In(id: string, held: bool, won: bool) {
      Correct(id, labels, baseline) == held && Correct(id, labels, candidate) == won
    }

    /** The examples with one combination of verdicts: one of the four cells. */
    function Cell(ids: seq<string>, held: bool, won: bool): set<string> {
      set i | 0 <= i < |ids| && In(ids[i], held, won) :: ids[i]
    }
  }

  ghost predicate Comparable(evidenceId: string, p: Partition, b: PredictionDocument, c: PredictionDocument) {
    && IsStableId(evidenceId)
    && b.role == c.role && Different(b.variant, c.variant)
    && b.publicDataset == c.publicDataset == p.commitment.publicDataset
    && b.publicPartition == c.publicPartition == p.commitment.publicPartition
    && var expected := ElementsOf(p.Ids(b.role));
       PredictionMap(b, expected, p.outputFields).Ok? && PredictionMap(c, expected, p.outputFields).Ok?
  }

  /** A report whose four cells count the partition's examples by the two verdicts. */
  ghost predicate Tallied(r: Report, evidenceId: string, p: Partition, b: PredictionDocument, c: PredictionDocument) {
    var ids := p.Ids(b.role);
    var contest := Contest(p.labels, LastById(b.predictions), LastById(c.predictions));
    && r.total == |ids|
    && r.both == |contest.Cell(ids, true, true)| && r.baselineOnly == |contest.Cell(ids, true, false)|
    && r.candidateOnly == |contest.Cell(ids, false, true)| && r.neither == |contest.Cell(ids, false, false)|
    && r.role == b.role && r.evidenceId == evidenceId && r.commitment == p.commitment
    && r.baseline == b.variant && r.candidate == c.variant
  }

  function ElementsOf(ids: seq<string>): set<string> {
    set i | 0 <= i < |ids| :: ids[i]
  }

  /** `compare_variant_predictions`: four counters over the examples of one partition. */
  method CompareVariantPredictions(
    evidenceId: string, p: Partition, b: PredictionDocument, c: PredictionDocument)
    returns (outcome: Result<Report, Error>)
    requires p.Verified() && ValidDocument(b) && ValidDocument(c)
    ensures outcome.Ok? <==> Comparable(evidenceId, p, b, c)
    ensures outcome.Ok? ==> Tallied(outcome.value, evidenceId, p, b, c)
  {
    if !IsStableId(evidenceId) {
      return Err(UnstableEvidenceId);
    }
    if b.role != c.role {
      return Err(RoleMismatch);
    }
    if b.variant.id == c.variant.id || b.variant.sha256 == c.variant.sha256 {
      return Err(SameVariant);
    }
    if b.publicDataset != p.commitment.publicDataset || c.publicDataset != p.commitment.publicDataset {
      return Err(DatasetMismatch);
    }
    if b.publicPartition != p.commitment.publicPartition || c.publicPartition != p.commitment.publicPartition {
      return Err(PartitionMismatch);
    }
    var ids := p.Ids(b.role);
    var expected := ElementsOf(ids);
    var baselineMap := PredictionMap(b, expected, p.outputFields);
    if baselineMap.Err? {
      return Err(baselineMap.error);
    }
    var candidateMap := PredictionMap(c, expected, p.outputFields);
    if candidateMap.Err? {
      return Err(candidateMap.error);
    }
    var report := Tally(evidenceId, p, b, c, baselineMap.value, candidateMap.value);
    outcome := Ok(report);
  }

  method Tally(
    evidenceId: string, p: Partition, b: PredictionDocument, c: PredictionDocument,
    baseline: map<string, Outputs>, candidate: map<string, Outputs>) returns (report: Report)
    requires p.Verified() && ValidDocument(b) && ValidDocument(c) && Different(b.variant, c.variant)
    requires baseline == LastById(b.predictions) && candidate == LastById(c.predictions)
    requires ElementsOf(p.Ids(b.role)) == ExampleIds(b.predictions)
    ensures Tallied(report, evidenceId, p, b, c)
  {
    var ids := p.Ids(b.role);
    var both, baselineOnly, candidateOnly, neither := CountCells(ids, Contest(p.labels, baseline, candidate));
    PartitionFitsReport(ids, b.predictions);
    report := BuildReport(evidenceId, b.role, p.commitment, b.variant, c.variant, |ids|,
                          both, baselineOnly, candidateOnly, neither);
  }

  /** The report constructor with its two derived scores; the counts meet the report's validator. */
  function BuildReport(
    evidenceId: string, role: Role, commitment: Commitment, b: Variant, c: Variant, total: int,
    both: int, baselineOnly: int, candidateOnly: int, neither: int): Report
    requires Different(b, c) && 1 <= total <= 10_000
    requires both >= 0 && baselineOnly >= 0 && candidateOnly >= 0 && neither >= 0
    requires both + baselineOnly + candidateOnly + neither == total
  {
    Report(evidenceId, role, commitment, b, c, total, both, baselineOnly, candidateOnly, neither,
           Ratio(both + baselineOnly, total), Ratio(both + candidateOnly, total))
  }

  method CountCells(ids: seq<string>, contest: Contest)
    returns (both: int, baselineOnly: int, candidateOnly: int, neither: int)
    requires forall i, j :: 0 <= i < j < |ids| ==> ids[i] != ids[j]
    ensures both == |contest.Cell(ids, true, true)| && baselineOnly == |contest.Cell(ids, true, false)|
    ensures candidateOnly == |contest.Cell(ids, false, true)| && neither == |contest.Cell(ids, false, false)|
    ensures both + baselineOnly + candidateOnly + neither == |ids|
  {
    both, baselineOnly, candidateOnly, neither := 0, 0, 0, 0;
    for i := 0 to |ids|
      invariant both == |contest.Cell(ids[..i], true, true)|
      invariant baselineOnly == |contest.Cell(ids[..i], true, false)|
      invariant candidateOnly == |contest.Cell(ids[..i], false, true)|
      invariant neither == |contest.Cell(ids[..i], false, false)|
      invariant both + baselineOnly + candidateOnly + neither == i
    {
      var id := ids[i];
      CellStep(ids, i, contest, true, true);
      CellStep(ids, i, contest, true, false);
      CellStep(ids, i, contest, false, true);
      CellStep(ids, i, contest, false, false);
      var baselineCorrect := Correct(id, contest.labels, contest.baseline);
      var candidateCorrect := Correct(id, contest.labels, contest.candidate);
      if baselineCorrect && candidateCorrect {
        both := both + 1;
      } else if baselineCorrect {
        baselineOnly := baselineOnly + 1;
      } else if candidateCorrect {
        candidateOnly := candidateOnly + 1;
      } else {
        neither := neither + 1;
      }
    }
    assert ids[..|ids|] == ids;
  }

  lemma {:induction false} CellMembers(ids: seq<string>, i: nat, contest: Contest, held: bool, won: bool, id: string)
    requires i <= |ids|
    ensures id in contest.Cell(ids[..i], held, won) <==>
              contest.In(id, held, won) && exists j :: 0 <= j < i && ids[j] == id
  {
    var some := ids[..i];
    assert forall j :: 0 <= j < i ==> some[j] == ids[j];
    if contest.In(id, held, won) {
      if j :| 0 <= j < i && ids[j] == id {
        assert some[j] == id;
      }
    }
  }

  /** A fresh example enlarges the one cell it falls into, by one. */
  lemma {:induction false} CellStep(ids: seq<string>, i: nat, contest: Contest, held: bool, won: bool)
    requires i < |ids|
    requires forall j, k :: 0 <= j < k < |ids| ==> ids[j] != ids[k]
    ensures |contest.Cell(ids[..i + 1], held, won)| ==
              |contest.Cell(ids[..i], held, won)| + (if contest.In(ids[i], held, won) then 1 else 0)
  {
    var before, after := contest.Cell(ids[..i], held, won), contest.Cell(ids[..i + 1], held, won);
    CellMembers(ids, i, contest, held, won, ids[i]);
    forall id ensures id in after <==> id in before || (id == ids[i] && contest.In(id, held, won)) {
      CellMembers(ids, i, contest, held, won, id);
      CellMembers(ids, i + 1, contest, held, won, id);
    }
    OneMore(before, after, ids[i], contest.In(ids[i], held, won));
  }

  lemma {:induction false} OneMore(before: set<string>, after: set<string>, id: string, grows: bool)
    requires id !in before && forall other :: other in after <==> other in before || (other == id && grows)
    ensures |after| == |before| + if grows then 1 else 0
  {
    assert after == before + if grows then {id} else {};
  }

  /** Answering exactly the partition's examples bounds the partition by the document's own limits. */
  lemma {:induction false} PartitionFitsReport(ids: seq<string>, predictions: seq<Prediction>)
    requires forall i, j :: 0 <= i < j < |ids| ==> ids[i] != ids[j]
    requires forall j, k :: 0 <= j < k < |predictions| ==> predictions[j].exampleId != predictions[k].exampleId
    requires ElementsOf(ids) == ExampleIds(predictions)
    ensures |ids| == |predictions|
  {
    SizeOfElements(ids);
    SizeOfIds(predictions);
  }

  lemma {:induction false} SizeOfElements(ids: seq<string>)
    requires forall i, j :: 0 <= i < j < |ids| ==> ids[i] != ids[j]
    ensures |ElementsOf(ids)| == |ids|
  {
    if ids != [] {
      var n := |ids| - 1;
      SizeOfElements(ids[..n]);
      assert ElementsOf(ids) == ElementsOf(ids[..n]) + {ids[n]};
    }
  }

  lemma {:induction false} SizeOfIds(predictions: seq<Prediction>)
    requires forall j, k :: 0 <= j < k < |predictions| ==> predictions[j].exampleId != predictions[k].exampleId
    ensures |ExampleIds(predictions)| == |predictions|
  {
    if predictions != [] {
      var n := |predictions| - 1;
      SizeOfIds(predictions[..n]);
      assert ExampleIds(predictions) == ExampleIds(predictions[..n]) + {predictions[n].exampleId};
    }
  }
}
