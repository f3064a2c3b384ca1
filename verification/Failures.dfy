/** The failure taxonomy of failures.py: code tables, records, and the validated run summary. */
module Failures {
  import opened Prelude

  datatype Category = Task | Resource | Dependency | Environment | Sandbox | Observability | ControlFlow

  datatype Code =
    | UnexpectedExit | SignalTermination | Timeout | CommandNotFound | PermissionDenied | ProcessLaunchError
    | WorkingDirectoryMissing | SandboxConfiguration | SandboxRuntime | SandboxCleanup | OutputCapture
    | SkippedAfterFailure

  datatype Impact = EvaluationFailure | InfrastructureError | NotEvaluated

  datatype Retryability = No | Maybe | AfterFix | Unknown

  function CategoryOf(code: Code): Category {
    match code
    case UnexpectedExit | SignalTermination => Task
    case Timeout => Resource
    case CommandNotFound => Dependency
    case PermissionDenied | ProcessLaunchError | WorkingDirectoryMissing => Environment
    case SandboxConfiguration | SandboxRuntime | SandboxCleanup => Sandbox
    case OutputCapture => Observability
    case SkippedAfterFailure => ControlFlow
  }

  function ImpactOf(code: Code): Impact {
    match code
    case UnexpectedExit | SignalTermination | Timeout => EvaluationFailure
    case SkippedAfterFailure => NotEvaluated
    case _ => InfrastructureError
  }

  function RetryabilityOf(code: Code): Retryability {
    match code
    case UnexpectedExit | SignalTermination => No
    case Timeout => Maybe
    case ProcessLaunchError => Unknown
    case _ => AfterFix
  }

  /** `_IMPACT_PRIMARY_RANK`. */
  function Rank(code: Code): nat {
    match ImpactOf(code)
    case InfrastructureError => 0
    case EvaluationFailure => 1
    case NotEvaluated => 2
  }

  datatype Record = Record(
    category: Category, code: Code, impact: Impact, retryability: Retryability,
    causedBy: Option<string>, causes: seq<Code>)

  predicate ValidRecord(r: Record) {
    && r.category == CategoryOf(r.code) && r.impact == ImpactOf(r.code)
    && r.retryability == RetryabilityOf(r.code)
    && r.code !in r.causes
    && |r.causes| <= 10
    && (forall i, j :: 0 <= i < j < |r.causes| ==> r.causes[i] != r.causes[j])
    && (r.code == SkippedAfterFailure <==> r.causedBy.Some?)
  }

  // ---- the record constructors ----------------------------------------------------------------

  function UnexpectedExitFailure(exitCode: int): (r: Record)
    ensures ValidRecord(r)
  {
    if exitCode < 0 then Record(Task, SignalTermination, EvaluationFailure, No, None, [])
    else Record(Task, UnexpectedExit, EvaluationFailure, No, None, [])
  }

  function TimeoutFailure(infrastructure: Option<Code>): (r: Record)
    ensures ValidRecord(r)
    ensures r.impact == InfrastructureError <==> infrastructure in {Some(SandboxCleanup), Some(OutputCapture)}
  {
    if infrastructure == Some(SandboxCleanup) then
      Record(Sandbox, SandboxCleanup, InfrastructureError, AfterFix, None, [Timeout])
    else if infrastructure == Some(OutputCapture) then
      Record(Observability, OutputCapture, InfrastructureError, AfterFix, None, [Timeout])
    else Record(Resource, Timeout, EvaluationFailure, Maybe, None, [])
  }

  function OutputCaptureFailure(): (r: Record)
    ensures ValidRecord(r) && r.impact == InfrastructureError
  {
    Record(Observability, OutputCapture, InfrastructureError, AfterFix, None, [])
  }

  function WorkingDirectoryFailure(): (r: Record)
    ensures ValidRecord(r) && r.impact == InfrastructureError
  {
    Record(Environment, WorkingDirectoryMissing, InfrastructureError, AfterFix, None, [])
  }

  function SandboxFailure(configuration: bool): (r: Record)
    ensures ValidRecord(r) && r.impact == InfrastructureError
  {
    Record(Sandbox, if configuration then SandboxConfiguration else SandboxRuntime,
           InfrastructureError, AfterFix, None, [])
  }

  /** How an OSError presents itself: by class or by errno. */
  datatype LaunchError = NotFound | AccessDenied | OtherOSError

  function LaunchFailure(error: LaunchError): (r: Record)
    ensures ValidRecord(r) && r.impact == InfrastructureError
  {
    match error
    case NotFound => Record(Dependency, CommandNotFound, InfrastructureError, AfterFix, None, [])
    case AccessDenied => Record(Environment, PermissionDenied, InfrastructureError, AfterFix, None, [])
    case OtherOSError => Record(Environment, ProcessLaunchError, InfrastructureError, Unknown, None, [])
  }

  function SkippedFailure(blockedBy: string): (r: Record)
    ensures ValidRecord(r) && r.impact == NotEvaluated
  {
    Record(ControlFlow, SkippedAfterFailure, NotEvaluated, AfterFix, Some(blockedBy), [])
  }

  // ---- the summary and its validator ----------------------------------------------------------

  datatype Summary = Summary(
    total: int, evaluationFailures: int, infrastructureErrors: int, notEvaluated: int,
    byCategory: map<Category, int>, byCode: map<Code, int>,
    primaryCheckId: Option<string>, primaryCode: Option<Code>)

  const EMPTY_SUMMARY := Summary(0, 0, 0, 0, map[], map[], None, None)

  const ALL_CODES: seq<Code> := [
    UnexpectedExit, SignalTermination, Timeout, CommandNotFound, PermissionDenied, ProcessLaunchError,
    WorkingDirectoryMissing, SandboxConfiguration, SandboxRuntime, SandboxCleanup, OutputCapture,
    SkippedAfterFailure]

  const ALL_CATEGORIES: seq<Category> := [
    Task, Resource, Dependency, Environment, Sandbox, Observability, ControlFlow]

  function CountAt<K>(counts: map<K, int>, key: K): int {
    if key in counts then counts[key] else 0
  }

  /** The sum of the counted values among `keys` that satisfy `keep`. */
  function Tally<K>(keys: seq<K>, counts: map<K, int>, keep: K -> bool): int {
    if keys == [] then 0
    else (if keep(keys[0]) then CountAt(counts, keys[0]) else 0) + Tally(keys[1..], counts, keep)
  }

  /** The category counts are exactly those the code counts imply. */
  ghost predicate CategoriesMatch(byCategory: map<Category, int>, byCode: map<Code, int>) {
    forall c ::
      && (c in byCategory <==> exists code :: code in byCode && CategoryOf(code) == c)
      && (c in byCategory ==> byCategory[c] > 0 && byCategory[c] == Tally(ALL_CODES, byCode, InCategory(c)))
  }

  ghost predicate PrimaryIsBest(primary: Code, byCode: map<Code, int>) {
    primary in byCode && forall code :: code in byCode ==> Rank(primary) <= Rank(code)
  }

  /** `FailureSummary.counts_must_be_consistent`. */
  ghost predicate ValidSummary(s: Summary) {
    && s.total >= 0 && s.evaluationFailures >= 0 && s.infrastructureErrors >= 0 && s.notEvaluated >= 0
    && (forall c :: c in s.byCode ==> s.byCode[c] > 0)
    && s.evaluationFailures + s.infrastructureErrors + s.notEvaluated == s.total
    && Tally(ALL_CATEGORIES, s.byCategory, c => true) == s.total
    && Tally(ALL_CODES, s.byCode, c => true) == s.total
    && CategoriesMatch(s.byCategory, s.byCode)
    && s.evaluationFailures == Tally(ALL_CODES, s.byCode, WithImpact(EvaluationFailure))
    && s.infrastructureErrors == Tally(ALL_CODES, s.byCode, WithImpact(InfrastructureError))
    && s.notEvaluated == Tally(ALL_CODES, s.byCode, WithImpact(NotEvaluated))
    && (s.primaryCheckId.None? <==> s.primaryCode.None?)
    && (s.total == 0 <==> s.primaryCheckId.None?)
    && (s.primaryCode.Some? ==> PrimaryIsBest(s.primaryCode.value, s.byCode))
  }

  function InCategory(c: Category): Code -> bool {
    code => CategoryOf(code) == c
  }

  function WithImpact(impact: Impact): Code -> bool {
    code => ImpactOf(code) == impact
  }

  // ---- summarizing ----------------------------------------------------------------------------

  /** A check with its failure, if any, as the runner hands them over. */
  datatype Entry = Entry(checkId: string, failure: Option<Record>)

  /** The entries with a failure, in order. */
  function Present(entries: seq<Entry>): (r: seq<Entry>)
    ensures forall e :: e in r ==> e.failure.Some? && e in entries
  {
    if entries == [] then []
    else
      var last := entries[|entries| - 1];
      Present(entries[..|entries| - 1]) + (if last.failure.Some? then [last] else [])
  }

  function Codes(present: seq<Entry>): (r: seq<Code>)
    requires forall e :: e in present ==> e.failure.Some?
    ensures |r| == |present|
    ensures forall i :: 0 <= i < |r| ==> r[i] == present[i].failure.value.code
  {
    seq(|present|, i requires 0 <= i < |present| => present[i].failure.value.code)
  }

  /** How many elements satisfy `keep`. */
  function Count<T>(xs: seq<T>, keep: T -> bool): nat {
    if xs == [] then 0
    else Count(xs[..|xs| - 1], keep) + (if keep(xs[|xs| - 1]) then 1 else 0)
  }

  /** What a `Counter` over a sequence holds. */
  ghost predicate Counts<T(!new)>(counter: map<T, int>, xs: seq<T>) {
    forall x :: CountAt(counter, x) == Count(xs, y => y == x) && (x in counter <==> x in xs)
  }

  method CountAll<T(!new, ==)>(xs: seq<T>) returns (counter: map<T, int>)
    ensures Counts(counter, xs)
  {
    counter := map[];
    for i := 0 to |xs|
      invariant Counts(counter, xs[..i])
    {
      ghost var before := counter;
      assert xs[..i + 1] == xs[..i] + [xs[i]];
      counter := counter[xs[i] := CountAt(counter, xs[i]) + 1];
      forall x ensures CountAt(counter, x) == Count(xs[..i + 1], y => y == x) && (x in counter <==> x in xs[..i + 1]) {
        assert CountAt(before, x) == Count(xs[..i], y => y == x);
      }
    }
    assert xs[..|xs|] == xs;
  }

  /** The best rank among the codes and its earliest position. */
  ghost predicate IsPrimary(codes: seq<Code>, at: nat) {
    && at < |codes|
    && (forall j :: 0 <= j < |codes| ==> Rank(codes[at]) <= Rank(codes[j]))
    && (forall j :: 0 <= j < at ==> Rank(codes[at]) < Rank(codes[j]))
  }

  ghost predicate PrimaryAt(s: Summary, present: seq<Entry>, codes: seq<Code>, at: nat)
    requires |codes| == |present|
  {
    IsPrimary(codes, at) && s.primaryCheckId == Some(present[at].checkId) && s.primaryCode == Some(codes[at])
  }

  /** What the summary of a sequence of entries must say. */
  ghost predicate Summarizes(s: Summary, entries: seq<Entry>) {
    var present := Present(entries);
    var codes := Codes(present);
    && s.total == |codes|
    && s.evaluationFailures == Count(codes, WithImpact(EvaluationFailure))
    && s.infrastructureErrors == Count(codes, WithImpact(InfrastructureError))
    && s.notEvaluated == Count(codes, WithImpact(NotEvaluated))
    && Counts(s.byCode, codes)
    && Counts(s.byCategory, Categories(codes))
    && (codes == [] ==> s.primaryCheckId == None && s.primaryCode == None)
    && (codes != [] ==> exists at: nat :: PrimaryAt(s, present, codes, at))
  }

  function Categories(codes: seq<Code>): (r: seq<Category>)
    ensures |r| == |codes|
    ensures forall i :: 0 <= i < |r| ==> r[i] == CategoryOf(codes[i])
  {
    MapSeq(CategoryOf, codes)
  }

  /** `min(present, key=lambda item: (rank, index))`. */
  method Primary(codes: seq<Code>) returns (at: nat)
    requires codes != []
    ensures IsPrimary(codes, at)
  {
    at := 0;
    for i := 1 to |codes|
      invariant at < i && IsPrimary(codes[..i], at)
    {
      if Rank(codes[i]) < Rank(codes[at]) {
        at := i;
      }
    }
    assert codes[..|codes|] == codes;
  }

  method SummarizeFailures(entries: seq<Entry>) returns (s: Summary)
    requires forall e :: e in entries && e.failure.Some? ==> ValidRecord(e.failure.value)
    ensures Summarizes(s, entries)
  {
    var present: seq<Entry> := [];
    for i := 0 to |entries|
      invariant present == Present(entries[..i])
    {
      assert entries[..i + 1][..i] == entries[..i];
      if entries[i].failure.Some? {
        present := present + [entries[i]];
      }
    }
    assert entries[..|entries|] == entries;
    if present == [] {
      return EMPTY_SUMMARY;
    }
    var codes := Codes(present);
    var byCategory := CountAll(Categories(codes));
    var byCode := CountAll(codes);
    var at := Primary(codes);
    s := Summary(|present|, Count(codes, WithImpact(EvaluationFailure)),
                 Count(codes, WithImpact(InfrastructureError)), Count(codes, WithImpact(NotEvaluated)),
                 byCategory, byCode, Some(present[at].checkId), Some(codes[at]));
    assert PrimaryAt(s, present, codes, at);
  }

  // ---- the computed summary satisfies its own validator -----------------------------------------

  /** Adding one to the count of a listed key adds one to the tally, if the key is kept. */
  lemma {:induction false} TallyStep<K>(keys: seq<K>, before: map<K, int>, after: map<K, int>, key: K, keep: K -> bool)
    requires forall i, j :: 0 <= i < j < |keys| ==> keys[i] != keys[j]
    requires forall k :: k in keys ==> CountAt(after, k) == CountAt(before, k) + (if k == key then 1 else 0)
    ensures Tally(keys, after, keep) == Tally(keys, before, keep) + (if key in keys && keep(key) then 1 else 0)
  {
    if keys != [] {
      TallyStep(keys[1..], before, after, key, keep);
    }
  }

  lemma {:induction false} TallyZero<K>(keys: seq<K>, counts: map<K, int>, keep: K -> bool)
    requires forall k :: k in keys ==> CountAt(counts, k) == 0
    ensures Tally(keys, counts, keep) == 0
  {
    if keys != [] {
      TallyZero(keys[1..], counts, keep);
    }
  }

  /** Summing a counter over a duplicate-free key list counts the elements themselves. */
  lemma {:induction false} TallyOfCounter<K(!new)>(keys: seq<K>, counter: map<K, int>, xs: seq<K>, keep: K -> bool)
    requires forall i, j :: 0 <= i < j < |keys| ==> keys[i] != keys[j]
    requires forall x :: x in xs ==> x in keys
    requires forall x :: CountAt(counter, x) == Count(xs, y => y == x)
    ensures Tally(keys, counter, keep) == Count(xs, keep)
    decreases |xs|
  {
    if xs == [] {
      TallyZero(keys, counter, keep);
    } else {
      var n := |xs| - 1;
      var last := xs[n];
      var smaller := counter[last := CountAt(counter, last) - 1];
      forall x ensures CountAt(smaller, x) == Count(xs[..n], y => y == x) {
        assert CountAt(counter, x) == Count(xs, y => y == x);
      }
      TallyOfCounter(keys, smaller, xs[..n], keep);
      TallyStep(keys, smaller, counter, last, keep);
    }
  }

  lemma {:induction false} AllCodesListed(code: Code)
    ensures code in ALL_CODES
  {
    match code {
      case UnexpectedExit => assert ALL_CODES[0] == code;
      case SignalTermination => assert ALL_CODES[1] == code;
      case Timeout => assert ALL_CODES[2] == code;
      case CommandNotFound => assert ALL_CODES[3] == code;
      case PermissionDenied => assert ALL_CODES[4] == code;
      case ProcessLaunchError => assert ALL_CODES[5] == code;
      case WorkingDirectoryMissing => assert ALL_CODES[6] == code;
      case SandboxConfiguration => assert ALL_CODES[7] == code;
      case SandboxRuntime => assert ALL_CODES[8] == code;
      case SandboxCleanup => assert ALL_CODES[9] == code;
      case OutputCapture => assert ALL_CODES[10] == code;
      case SkippedAfterFailure => assert ALL_CODES[11] == code;
    }
  }

  lemma {:induction false} AllCategoriesListed(c: Category)
    ensures c in ALL_CATEGORIES
  {
    match c {
      case Task => assert ALL_CATEGORIES[0] == c;
      case Resource => assert ALL_CATEGORIES[1] == c;
      case Dependency => assert ALL_CATEGORIES[2] == c;
      case Environment => assert ALL_CATEGORIES[3] == c;
      case Sandbox => assert ALL_CATEGORIES[4] == c;
      case Observability => assert ALL_CATEGORIES[5] == c;
      case ControlFlow => assert ALL_CATEGORIES[6] == c;
    }
  }

  lemma {:induction false} CountEverything<T>(xs: seq<T>)
    ensures Count(xs, x => true) == |xs|
  {
    if xs != [] {
      CountEverything(xs[..|xs| - 1]);
    }
  }

  lemma {:induction false} CountPositive<T>(xs: seq<T>, x: T)
    requires x in xs
    ensures Count(xs, y => y == x) > 0
  {
    var n := |xs| - 1;
    if xs[n] != x {
      assert xs == xs[..n] + [xs[n]];
      CountPositive(xs[..n], x);
    }
  }

  lemma {:induction false} CountInCategory(codes: seq<Code>, c: Category)
    ensures Count(Categories(codes), y => y == c) == Count(codes, InCategory(c))
  {
    if codes != [] {
      var n := |codes| - 1;
      assert Categories(codes)[..n] == Categories(codes[..n]);
      CountInCategory(codes[..n], c);
    }
  }

  lemma {:induction false} CountByImpact(codes: seq<Code>)
    ensures Count(codes, WithImpact(EvaluationFailure)) + Count(codes, WithImpact(InfrastructureError))
              + Count(codes, WithImpact(NotEvaluated)) == |codes|
  {
    if codes != [] {
      CountByImpact(codes[..|codes| - 1]);
    }
  }

  lemma {:induction false} CodeTallies(byCode: map<Code, int>, codes: seq<Code>, keep: Code -> bool)
    requires Counts(byCode, codes)
    ensures Tally(ALL_CODES, byCode, keep) == Count(codes, keep)
  {
    forall code | code in codes ensures code in ALL_CODES {
      AllCodesListed(code);
    }
    TallyOfCounter(ALL_CODES, byCode, codes, keep);
  }

  lemma {:induction false} CategoryTotal(byCategory: map<Category, int>, categories: seq<Category>)
    requires Counts(byCategory, categories)
    ensures Tally(ALL_CATEGORIES, byCategory, c => true) == |categories|
  {
    forall c | c in categories ensures c in ALL_CATEGORIES {
      AllCategoriesListed(c);
    }
    TallyOfCounter(ALL_CATEGORIES, byCategory, categories, c => true);
    CountEverything(categories);
  }

  lemma {:induction false} CategoryPresent(codes: seq<Code>, c: Category)
    ensures c in Categories(codes) <==> exists code :: code in codes && CategoryOf(code) == c
  {
    var categories := Categories(codes);
    if c in categories {
      var i :| 0 <= i < |categories| && categories[i] == c;
      assert codes[i] in codes;
    }
    if code :| code in codes && CategoryOf(code) == c {
      var i :| 0 <= i < |codes| && codes[i] == code;
      assert categories[i] == c;
    }
  }

  lemma {:induction false} CategoryCounts(byCategory: map<Category, int>, byCode: map<Code, int>, codes: seq<Code>)
    requires Counts(byCode, codes) && Counts(byCategory, Categories(codes))
    ensures CategoriesMatch(byCategory, byCode)
  {
    forall c
      ensures c in byCategory <==> exists code :: code in byCode && CategoryOf(code) == c
      ensures c in byCategory ==> byCategory[c] > 0 && byCategory[c] == Tally(ALL_CODES, byCode, InCategory(c))
    {
      CategoryPresent(codes, c);
      CodeTallies(byCode, codes, InCategory(c));
      CountInCategory(codes, c);
      assert CountAt(byCategory, c) == Count(Categories(codes), y => y == c);
      if c in byCategory {
        CountPositive(Categories(codes), c);
      }
    }
  }

  lemma {:induction false} CodeCountsPositive(byCode: map<Code, int>, codes: seq<Code>)
    requires Counts(byCode, codes)
    ensures forall c :: c in byCode ==> byCode[c] > 0
  {
    forall c | c in byCode ensures byCode[c] > 0 {
      CountPositive(codes, c);
      assert CountAt(byCode, c) == Count(codes, y => y == c);
    }
  }

  /** Whatever the failures were, the computed summary passes its own validator. */
  lemma {:induction false} SummaryIsValid(s: Summary, entries: seq<Entry>)
    requires Summarizes(s, entries)
    ensures ValidSummary(s)
  {
    var codes := Codes(Present(entries));
    CountByImpact(codes);
    CountEverything(codes);
    CodeTallies(s.byCode, codes, c => true);
    CodeTallies(s.byCode, codes, WithImpact(EvaluationFailure));
    CodeTallies(s.byCode, codes, WithImpact(InfrastructureError));
    CodeTallies(s.byCode, codes, WithImpact(NotEvaluated));
    CategoryTotal(s.byCategory, Categories(codes));
    CategoryCounts(s.byCategory, s.byCode, codes);
    CodeCountsPositive(s.byCode, codes);
  }
}
