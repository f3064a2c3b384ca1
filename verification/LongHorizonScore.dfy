/** The scorer of long_horizon.py: aggregate counts over all probes of a corpus. */
module LongHorizonScore {
  import opened Prelude
  import opened LongHorizon

  datatype Prediction = Prediction(taskId: string, probeId: string, active: State)

  datatype Score = Score(taskId: string, total: int, submitted: int, correct: int)

  datatype Report = Report(total: int, submitted: int, correct: int, scores: seq<Score>)

  datatype Error = DigestMismatch | UnknownPair | UndeclaredKeys

  type Pair = (string, string)

  ghost predicate ValidCorpus(tasks: seq<Task>) {
    && 1 <= |tasks|
    && (forall i {:trigger Scorable(tasks[i])} :: 0 <= i < |tasks| ==> Scorable(tasks[i]))
    && DistinctTasks(tasks)
  }

  /** A validated task with at least one probe. */
  ghost predicate Scorable(task: Task) {
    ValidTask(task) && |task.probes| >= 1
  }

  ghost predicate DistinctTasks(tasks: seq<Task>) {
    forall i, j :: 0 <= i < j < |tasks| ==> tasks[i].id != tasks[j].id
  }

  ghost predicate UniquePairs(predictions: seq<Prediction>) {
    forall i, j :: 0 <= i < j < |predictions| ==> PairOf(predictions[i]) != PairOf(predictions[j])
  }

  ghost predicate DistinctProbes(probes: seq<Probe>) {
    forall i, j :: 0 <= i < j < |probes| ==> probes[i].id != probes[j].id
  }

  function PairOf(p: Prediction): Pair {
    (p.taskId, p.probeId)
  }

  /** The pairs of the first n probes of a task. */
  function PairsThrough(task: Task, n: nat): set<Pair>
    requires n <= |task.probes|
  {
    if n == 0 then {} else PairsThrough(task, n - 1) + {(task.id, task.probes[n - 1].id)}
  }

  function PairsOf(task: Task): set<Pair> {
    PairsThrough(task, |task.probes|)
  }

  function AllPairs(tasks: seq<Task>, n: nat): set<Pair>
    requires n <= |tasks|
  {
    if n == 0 then {} else AllPairs(tasks, n - 1) + PairsOf(tasks[n - 1])
  }

  /** The pairs among the first n probes whose submitted state is exactly the active one. */
  ghost function RightThrough(task: Task, n: nat, submitted: map<Pair, State>): set<Pair>
    requires n <= |task.probes|
  {
    if n == 0 then {}
    else
      RightThrough(task, n - 1, submitted) +
      if IsRight(task, n - 1, submitted) then {(task.id, task.probes[n - 1].id)} else {}
  }

  ghost function RightIn(task: Task, submitted: map<Pair, State>): set<Pair> {
    RightThrough(task, |task.probes|, submitted)
  }

  ghost predicate IsRight(task: Task, i: nat, submitted: map<Pair, State>)
    requires i < |task.probes|
  {
    var pair := (task.id, task.probes[i].id);
    pair in submitted && AtProbe(task, task.probes[i], submitted[pair])
  }

  ghost function Right(tasks: seq<Task>, n: nat, submitted: map<Pair, State>): set<Pair>
    requires n <= |tasks|
  {
    if n == 0 then {} else Right(tasks, n - 1, submitted) + RightIn(tasks[n - 1], submitted)
  }

  /** The two score validators, fractions aside: the derived score is correct / total. */
  predicate ValidScore(s: Score) {
    s.total >= 1 && 0 <= s.correct <= s.submitted <= s.total
  }

  function Totals(scores: seq<Score>): seq<int> {
    seq(|scores|, i requires 0 <= i < |scores| => scores[i].total)
  }

  function Submissions(scores: seq<Score>): seq<int> {
    seq(|scores|, i requires 0 <= i < |scores| => scores[i].submitted)
  }

  function Corrects(scores: seq<Score>): seq<int> {
    seq(|scores|, i requires 0 <= i < |scores| => scores[i].correct)
  }

  predicate ValidReport(r: Report) {
    && r.total >= 1 && 0 <= r.correct <= r.submitted <= r.total
    && (forall i :: 0 <= i < |r.scores| ==> ValidScore(r.scores[i]))
    && Sum(Totals(r.scores)) == r.total
    && Sum(Submissions(r.scores)) == r.submitted
    && Sum(Corrects(r.scores)) == r.correct
  }

  /** Every prediction names a probe of the corpus and only declared keys. */
  ghost predicate Accepted(tasks: seq<Task>, p: Prediction) {
    exists i :: 0 <= i < |tasks| && PairOf(p) in PairsOf(tasks[i]) && p.active.Keys <= KeySet(tasks[i].keys)
  }

  /** The submitted states by pair. */
  function StatesBy(predictions: seq<Prediction>): map<Pair, State> {
    if predictions == [] then map[]
    else
      var n := |predictions| - 1;
      StatesBy(predictions[..n])[PairOf(predictions[n]) := predictions[n].active]
  }

  lemma {:induction false} StatesByMembers(predictions: seq<Prediction>, pair: Pair)
    ensures pair in StatesBy(predictions) <==> exists i :: 0 <= i < |predictions| && PairOf(predictions[i]) == pair
  {
    if predictions != [] {
      var n := |predictions| - 1;
      StatesByMembers(predictions[..n], pair);
      assert predictions == predictions[..n] + [predictions[n]];
    }
  }

  /** With unique pairs nothing is overwritten: one entry a prediction, holding its own state. */
  lemma {:induction false} StatesByPair(predictions: seq<Prediction>)
    requires UniquePairs(predictions)
    ensures |StatesBy(predictions)| == |predictions|
    ensures forall i :: 0 <= i < |predictions| ==>
              PairOf(predictions[i]) in StatesBy(predictions)
              && StatesBy(predictions)[PairOf(predictions[i])] == predictions[i].active
  {
    if predictions != [] {
      var n := |predictions| - 1;
      var before, pair := predictions[..n], PairOf(predictions[n]);
      assert forall i :: 0 <= i < n ==> before[i] == predictions[i];
      StatesByPair(before);
      StatesByMembers(before, pair);
      assert StatesBy(predictions).Keys == StatesBy(before).Keys + {pair};
    }
  }

  lemma {:induction false} OnePairOneTask(tasks: seq<Task>, pair: Pair)
    requires DistinctTasks(tasks)
    ensures forall i, j :: 0 <= i < |tasks| && 0 <= j < |tasks| &&
                           pair in PairsOf(tasks[i]) && pair in PairsOf(tasks[j]) ==>
              i == j
  {
    forall i, j | 0 <= i < |tasks| && 0 <= j < |tasks| && pair in PairsOf(tasks[i]) && pair in PairsOf(tasks[j])
      ensures i == j
    {
      PairsThroughMembers(tasks[i], |tasks[i].probes|, pair);
      PairsThroughMembers(tasks[j], |tasks[j].probes|, pair);
    }
  }

  method FindTask(tasks: seq<Task>, pair: Pair) returns (found: Option<Task>)
    requires DistinctTasks(tasks)
    ensures found.Some? ==> exists i :: 0 <= i < |tasks| && tasks[i] == found.value && pair in PairsOf(tasks[i])
    ensures found.None? ==> forall i :: 0 <= i < |tasks| ==> pair !in PairsOf(tasks[i])
    ensures forall i :: 0 <= i < |tasks| && pair in PairsOf(tasks[i]) ==> found == Some(tasks[i])
  {
    OnePairOneTask(tasks, pair);
    for n := 0 to |tasks|
      invariant forall i :: 0 <= i < n ==> pair !in PairsOf(tasks[i])
    {
      if pair in PairsOf(tasks[n]) {
        return Some(tasks[n]);
      }
    }
    return None;
  }

  /** The first loop: the submitted states by pair, or the first prediction that does not fit. */
  method Collect(tasks: seq<Task>, predictions: seq<Prediction>) returns (outcome: Result<map<Pair, State>, Error>)
    requires DistinctTasks(tasks)
    ensures outcome.Ok? <==> forall i :: 0 <= i < |predictions| ==> Accepted(tasks, predictions[i])
    ensures outcome.Ok? ==> outcome.value == StatesBy(predictions)
  {
    var submitted: map<Pair, State> := map[];
    for n := 0 to |predictions|
      invariant forall i :: 0 <= i < n ==> Accepted(tasks, predictions[i])
      invariant submitted == StatesBy(predictions[..n])
    {
      var p := predictions[n];
      var task := FindTask(tasks, PairOf(p));
      if task.None? {
        assert !Accepted(tasks, p);
        return Err(UnknownPair);
      }
      if !(p.active.Keys <= KeySet(task.value.keys)) {
        assert !Accepted(tasks, p);
        return Err(UndeclaredKeys);
      }
      assert predictions[..n + 1][..n] == predictions[..n];
      submitted := submitted[PairOf(p) := p.active];
    }
    assert predictions[..|predictions|] == predictions;
    return Ok(submitted);
  }

  lemma {:induction false} PairsThroughMembers(task: Task, n: nat, pair: Pair)
    requires n <= |task.probes|
    ensures pair in PairsThrough(task, n) <==>
              pair.0 == task.id && exists i :: 0 <= i < n && task.probes[i].id == pair.1
  {
    if n > 0 {
      PairsThroughMembers(task, n - 1, pair);
    }
  }

  lemma {:induction false} RightPairsAreOwn(task: Task, n: nat, submitted: map<Pair, State>)
    requires n <= |task.probes|
    ensures RightThrough(task, n, submitted) <= PairsThrough(task, n) * submitted.Keys
  {
    if n > 0 {
      RightPairsAreOwn(task, n - 1, submitted);
    }
  }

  /** What the probe loop has counted after n probes. */
  ghost predicate Counted(task: Task, n: nat, submitted: map<Pair, State>, sent: int, correct: int) {
    && n <= |task.probes| && |PairsThrough(task, n)| == n
    && sent == |PairsThrough(task, n) * submitted.Keys| <= n
    && correct == |RightThrough(task, n, submitted)| <= sent
  }

  lemma {:induction false} OneMore(a: set<Pair>, keys: set<Pair>, pair: Pair)
    requires pair !in a
    ensures |a + {pair}| == |a| + 1
    ensures |(a + {pair}) * keys| == |a * keys| + if pair in keys then 1 else 0
  {
    assert (a + {pair}) * keys == (a * keys) + if pair in keys then {pair} else {};
  }

  lemma {:induction false} CountStep(task: Task, n: nat, submitted: map<Pair, State>, sent: int, correct: int)
    requires n < |task.probes| && DistinctProbes(task.probes) && Counted(task, n, submitted, sent, correct)
    ensures var answered := (task.id, task.probes[n].id) in submitted;
            Counted(task, n + 1, submitted, if answered then sent + 1 else sent,
                    if IsRight(task, n, submitted) then correct + 1 else correct)
  {
    var pair := (task.id, task.probes[n].id);
    PairsThroughMembers(task, n, pair);
    RightPairsAreOwn(task, n, submitted);
    OneMore(PairsThrough(task, n), submitted.Keys, pair);
    if IsRight(task, n, submitted) {
      OneMore(RightThrough(task, n, submitted), {}, pair);
    }
  }

  /** The per-task loop of `evaluate_long_horizon_predictions`. */
  method ScoreTask(task: Task, submitted: map<Pair, State>) returns (score: Score)
    requires Scorable(task)
    ensures ValidScore(score) && score.taskId == task.id
    ensures score.total == |task.probes| == |PairsOf(task)|
    ensures score.submitted == |PairsOf(task) * submitted.Keys|
    ensures score.correct == |RightIn(task, submitted)|
  {
    var expected := ExpectedProbeStates(task);
    var sent, correct := CountAnswers(task, submitted, expected);
    score := Score(task.id, |task.probes|, sent, correct);
  }

  method CountAnswers(task: Task, submitted: map<Pair, State>, expected: map<string, State>)
    returns (sent: int, correct: int)
    requires DistinctProbes(task.probes) && ExpectedStates(task, expected)
    ensures Counted(task, |task.probes|, submitted, sent, correct)
  {
    sent, correct := 0, 0;
    for n := 0 to |task.probes|
      invariant Counted(task, n, submitted, sent, correct)
    {
      sent, correct := CountAnswer(task, n, submitted, expected, sent, correct);
    }
  }

  method CountAnswer(
    task: Task, n: nat, submitted: map<Pair, State>, expected: map<string, State>, before: int, beforeCorrect: int)
    returns (sent: int, correct: int)
    requires n < |task.probes| && DistinctProbes(task.probes) && ExpectedStates(task, expected)
    requires Counted(task, n, submitted, before, beforeCorrect)
    ensures Counted(task, n + 1, submitted, sent, correct)
  {
    CountStep(task, n, submitted, before, beforeCorrect);
    var answered, right := JudgeAnswer(task, n, submitted, expected);
    sent := if answered then before + 1 else before;
    correct := if right then beforeCorrect + 1 else beforeCorrect;
  }

  method JudgeAnswer(task: Task, n: nat, submitted: map<Pair, State>, expected: map<string, State>)
    returns (answered: bool, right: bool)
    requires ExpectedStates(task, expected) && n < |task.probes|
    ensures answered <==> (task.id, task.probes[n].id) in submitted
    ensures right <==> IsRight(task, n, submitted)
  {
    var pair := (task.id, task.probes[n].id);
    answered, right := pair in submitted, false;
    if answered {
      StateDecides(task, n, submitted[pair], expected);
      right := submitted[pair] == expected[task.probes[n].id];
    }
  }

  /** Comparing with the replayed state decides whether a candidate is the active state. */
  lemma {:induction false} StateDecides(task: Task, n: nat, candidate: State, expected: map<string, State>)
    requires ExpectedStates(task, expected) && n < |task.probes|
    ensures task.probes[n].id in expected
    ensures candidate == expected[task.probes[n].id] <==> AtProbe(task, task.probes[n], candidate)
  {
    var p := task.probes[n];
    if AtProbe(task, p, candidate) {
      StateIsUnique(History(task.turns, TurnIndex(task.turns, p.afterTurn) + 1), candidate, expected[p.id]);
    }
  }

  lemma {:induction false} PairsAreEarlier(tasks: seq<Task>, n: nat, submitted: map<Pair, State>)
    requires n <= |tasks|
    ensures forall pair :: pair in AllPairs(tasks, n) ==> exists i :: 0 <= i < n && pair in PairsOf(tasks[i])
    ensures Right(tasks, n, submitted) <= AllPairs(tasks, n) * submitted.Keys
  {
    RightPairsAreListed(tasks, n, submitted);
    EachPairHasATask(tasks, n);
  }

  lemma {:induction false} EachPairHasATask(tasks: seq<Task>, n: nat)
    requires n <= |tasks|
    ensures forall pair :: pair in AllPairs(tasks, n) ==> exists i :: 0 <= i < n && pair in PairsOf(tasks[i])
  {
    if n > 0 {
      EachPairHasATask(tasks, n - 1);
    }
  }

  lemma {:induction false} RightPairsAreListed(tasks: seq<Task>, n: nat, submitted: map<Pair, State>)
    requires n <= |tasks|
    ensures Right(tasks, n, submitted) <= AllPairs(tasks, n) * submitted.Keys
  {
    if n > 0 {
      RightPairsAreListed(tasks, n - 1, submitted);
      RightPairsAreOwn(tasks[n - 1], |tasks[n - 1].probes|, submitted);
    }
  }

  lemma {:induction false} OwnPairsAreNew(tasks: seq<Task>, n: nat)
    requires DistinctTasks(tasks) && n < |tasks|
    ensures AllPairs(tasks, n) !! PairsOf(tasks[n])
  {
    PairsAreEarlier(tasks, n, map[]);
    forall pair | pair in AllPairs(tasks, n) ensures pair !in PairsOf(tasks[n]) {
      var i :| 0 <= i < n && pair in PairsOf(tasks[i]);
      PairsThroughMembers(tasks[i], |tasks[i].probes|, pair);
      PairsThroughMembers(tasks[n], |tasks[n].probes|, pair);
    }
  }

  lemma {:induction false} DisjointParts(a: set<Pair>, b: set<Pair>, keys: set<Pair>)
    requires a !! b
    ensures |a + b| == |a| + |b|
    ensures |(a + b) * keys| == |a * keys| + |b * keys|
  {
    assert (a + b) * keys == (a * keys) + (b * keys);
    assert (a * keys) !! (b * keys);
  }

  /** One more task adds its own pairs, disjoint from all earlier ones. */
  lemma {:induction false} TaskAddsItsPairs(tasks: seq<Task>, n: nat, submitted: map<Pair, State>)
    requires DistinctTasks(tasks) && n < |tasks|
    ensures |AllPairs(tasks, n + 1)| == |AllPairs(tasks, n)| + |PairsOf(tasks[n])|
    ensures |AllPairs(tasks, n + 1) * submitted.Keys| ==
              |AllPairs(tasks, n) * submitted.Keys| + |PairsOf(tasks[n]) * submitted.Keys|
    ensures |Right(tasks, n + 1, submitted)| == |Right(tasks, n, submitted)| + |RightIn(tasks[n], submitted)|
  {
    OwnPairsAreNew(tasks, n);
    DisjointParts(AllPairs(tasks, n), PairsOf(tasks[n]), submitted.Keys);
    PairsAreEarlier(tasks, n, submitted);
    RightPairsAreOwn(tasks[n], |tasks[n].probes|, submitted);
    DisjointParts(Right(tasks, n, submitted), RightIn(tasks[n], submitted), {});
  }

  lemma {:induction false} SumsGrow(scores: seq<Score>, next: Score)
    ensures Sum(Totals(scores + [next])) == Sum(Totals(scores)) + next.total
    ensures Sum(Submissions(scores + [next])) == Sum(Submissions(scores)) + next.submitted
    ensures Sum(Corrects(scores + [next])) == Sum(Corrects(scores)) + next.correct
  {
    assert Totals(scores + [next]) == Totals(scores) + [next.total];
    assert Submissions(scores + [next]) == Submissions(scores) + [next.submitted];
    assert Corrects(scores + [next]) == Corrects(scores) + [next.correct];
    SumAppend(Totals(scores), [next.total]);
    SumAppend(Submissions(scores), [next.submitted]);
    SumAppend(Corrects(scores), [next.correct]);
    SumOne(next.total);
    SumOne(next.submitted);
    SumOne(next.correct);
  }

  lemma {:induction false} SumOne(x: int)
    ensures Sum([x]) == x
  {
    assert [x][1..] == [];
  }

  ghost predicate AllScoresValid(scores: seq<Score>) {
    forall i :: 0 <= i < |scores| ==> ValidScore(scores[i])
  }

  lemma {:induction false} OneMoreValid(scores: seq<Score>, next: Score)
    requires AllScoresValid(scores) && ValidScore(next)
    ensures AllScoresValid(scores + [next])
  {
  }

  /** The score names its task and counts that task's probes, answers and right answers. */
  ghost predicate Scores(score: Score, task: Task, submitted: map<Pair, State>) {
    && score.taskId == task.id && score.total == |task.probes|
    && score.submitted == |PairsOf(task) * submitted.Keys|
    && score.correct == |RightIn(task, submitted)|
  }

  /** One score a task, in order. */
  ghost predicate ScoresEach(scores: seq<Score>, tasks: seq<Task>, submitted: map<Pair, State>) {
    |scores| <= |tasks| && forall i :: 0 <= i < |scores| ==> Scores(scores[i], tasks[i], submitted)
  }

  lemma {:induction false} ScoresOneMore(
    scores: seq<Score>, tasks: seq<Task>, submitted: map<Pair, State>, score: Score)
    requires |scores| < |tasks| && ScoresEach(scores, tasks, submitted) && Scores(score, tasks[|scores|], submitted)
    ensures ScoresEach(scores + [score], tasks, submitted)
  {
  }

  /** The scores of the first n tasks add up to the sizes of three sets of pairs. */
  ghost predicate Tallied(tasks: seq<Task>, n: nat, submitted: map<Pair, State>, scores: seq<Score>) {
    && n <= |tasks| && |scores| == n && AllScoresValid(scores)
    && Sum(Totals(scores)) == |AllPairs(tasks, n)|
    && Sum(Submissions(scores)) == |AllPairs(tasks, n) * submitted.Keys|
    && Sum(Corrects(scores)) == |Right(tasks, n, submitted)|
  }

  lemma {:induction false} TallyStep(
    tasks: seq<Task>, n: nat, submitted: map<Pair, State>, scores: seq<Score>, score: Score)
    requires DistinctTasks(tasks) && n < |tasks| && Tallied(tasks, n, submitted, scores) && ValidScore(score)
    requires score.total == |PairsOf(tasks[n])| && score.submitted == |PairsOf(tasks[n]) * submitted.Keys|
    requires score.correct == |RightIn(tasks[n], submitted)|
    ensures Tallied(tasks, n + 1, submitted, scores + [score])
  {
    OneMoreValid(scores, score);
    TaskAddsItsPairs(tasks, n, submitted);
    SumsGrow(scores, score);
  }

  method ScoreTasks(
    tasks: seq<Task>, submitted: map<Pair, State>) returns (scores: seq<Score>, total: int, correct: int)
    requires ValidCorpus(tasks)
    ensures Tallied(tasks, |tasks|, submitted, scores)
    ensures total == Sum(Totals(scores)) && correct == Sum(Corrects(scores))
    ensures |scores| == |tasks| && ScoresEach(scores, tasks, submitted)
  {
    scores, total, correct := [], 0, 0;
    for n := 0 to |tasks|
      invariant Tallied(tasks, n, submitted, scores)
      invariant total == Sum(Totals(scores)) && correct == Sum(Corrects(scores))
      invariant |scores| == n && ScoresEach(scores, tasks, submitted)
    {
      var score := ScoreNext(tasks, n, submitted, scores);
      ScoresOneMore(scores, tasks, submitted, score);
      total := total + score.total;
      correct := correct + score.correct;
      scores := scores + [score];
    }
  }

  method ScoreNext(
    tasks: seq<Task>, n: nat, submitted: map<Pair, State>, ghost scores: seq<Score>) returns (score: Score)
    requires ValidCorpus(tasks) && n < |tasks| && Tallied(tasks, n, submitted, scores)
    ensures Tallied(tasks, n + 1, submitted, scores + [score])
    ensures Sum(Totals(scores + [score])) == Sum(Totals(scores)) + score.total
    ensures Sum(Corrects(scores + [score])) == Sum(Corrects(scores)) + score.correct
    ensures Scores(score, tasks[n], submitted)
  {
    assert Scorable(tasks[n]);
    score := ScoreTask(tasks[n], submitted);
    TallyStep(tasks, n, submitted, scores, score);
    SumsGrow(scores, score);
  }

  lemma {:induction false} SubmittedPairsExist(tasks: seq<Task>, predictions: seq<Prediction>)
    requires UniquePairs(predictions)
    requires forall i :: 0 <= i < |predictions| ==> Accepted(tasks, predictions[i])
    ensures AllPairs(tasks, |tasks|) * StatesBy(predictions).Keys == StatesBy(predictions).Keys
  {
    forall pair | pair in StatesBy(predictions) ensures pair in AllPairs(tasks, |tasks|) {
      StatesByMembers(predictions, pair);
      var i :| 0 <= i < |predictions| && PairOf(predictions[i]) == pair;
      assert Accepted(tasks, predictions[i]);
      var t :| 0 <= t < |tasks| && PairOf(predictions[i]) in PairsOf(tasks[t]);
      PairOfSomeTask(tasks, |tasks|, t, pair);
    }
  }

  lemma {:induction false} PairOfSomeTask(tasks: seq<Task>, n: nat, t: nat, pair: Pair)
    requires t < n <= |tasks| && pair in PairsOf(tasks[t])
    ensures pair in AllPairs(tasks, n)
  {
    if t < n - 1 {
      PairOfSomeTask(tasks, n - 1, t, pair);
    }
  }

  lemma {:induction false} AtLeastOnePair(tasks: seq<Task>, n: nat)
    requires ValidCorpus(tasks) && 1 <= n <= |tasks|
    ensures |AllPairs(tasks, n)| >= 1
  {
    assert Scorable(tasks[0]);
    var pair := (tasks[0].id, tasks[0].probes[0].id);
    PairsThroughMembers(tasks[0], |tasks[0].probes|, pair);
    PairOfSomeTask(tasks, n, 0, pair);
  }

  lemma {:induction false} SmallerSet(a: set<Pair>, b: set<Pair>)
    requires a <= b
    ensures |a| <= |b|
  {
    assert b == a + (b - a);
  }

  /** `evaluate_long_horizon_predictions`: the report counts right answers and always validates. */
  method EvaluatePredictions(tasks: seq<Task>, predictions: seq<Prediction>, digestsMatch: bool)
    returns (outcome: Result<Report, Error>)
    requires ValidCorpus(tasks) && UniquePairs(predictions)
    ensures outcome.Ok? <==> digestsMatch && forall i :: 0 <= i < |predictions| ==> Accepted(tasks, predictions[i])
    ensures outcome.Ok? ==>
              && ValidReport(outcome.value)
              && outcome.value.total == |AllPairs(tasks, |tasks|)|
              && outcome.value.submitted == |predictions|
              && outcome.value.correct == |Right(tasks, |tasks|, StatesBy(predictions))|
              && |outcome.value.scores| == |tasks| && ScoresEach(outcome.value.scores, tasks, StatesBy(predictions))
  {
    if !digestsMatch {
      return Err(DigestMismatch);
    }
    var collected := Collect(tasks, predictions);
    if collected.Err? {
      return Err(collected.error);
    }
    var submitted := collected.value;
    var scores, total, correct := ScoreTasks(tasks, submitted);
    SubmittedPairsExist(tasks, predictions);
    StatesByPair(predictions);
    PairsAreEarlier(tasks, |tasks|, submitted);
    SmallerSet(Right(tasks, |tasks|, submitted), submitted.Keys);
    SmallerSet(submitted.Keys, AllPairs(tasks, |tasks|));
    AtLeastOnePair(tasks, |tasks|);
    outcome := Ok(Report(total, |submitted|, correct, scores));
  }
}
