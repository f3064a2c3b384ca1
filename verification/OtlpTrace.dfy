/** The second half of the OTLP import: one trace for each group of spans, ordered by a stable sort. */
module OtlpTrace {
  import opened Prelude
  import opened Otlp

  // ---- drafting ---------------------------------------------------------------------------------------

  function StartOf(s: Span): Draft {
    Draft(s.start, 0, s.spanId, SpanStarted, s.name)
  }

  function EndOf(s: Span): Draft {
    Draft(s.end, 2, s.spanId, SpanCompleted, s.name)
  }

  function EventDraft(s: Span, e: SpanEvent): Draft {
    Draft(e.time, 1, s.spanId, SpanEventObserved, e.name)
  }

  function EventDrafts(s: Span): (drafts: seq<Draft>)
    ensures |drafts| == |s.events| && forall i :: 0 <= i < |drafts| ==> drafts[i] == EventDraft(s, s.events[i])
  {
    seq(|s.events|, i requires 0 <= i < |s.events| => EventDraft(s, s.events[i]))
  }

  function DraftsOf(s: Span): seq<Draft> {
    [StartOf(s)] + EventDrafts(s) + [EndOf(s)]
  }

  function Drafts(spans: seq<Span>): seq<Draft> {
    if spans == [] then [] else Drafts(spans[..|spans| - 1]) + DraftsOf(spans[|spans| - 1])
  }

  /** Two entries a span and one an event. */
  function Entries(spans: seq<Span>): nat {
    if spans == [] then 0 else 2 + |spans[0].events| + Entries(spans[1..])
  }

  lemma {:induction false} EntriesAppend(xs: seq<Span>, ys: seq<Span>)
    ensures Entries(xs + ys) == Entries(xs) + Entries(ys)
  {
    if xs == [] {
      assert xs + ys == ys;
    } else {
      assert (xs + ys)[1..] == xs[1..] + ys;
      EntriesAppend(xs[1..], ys);
    }
  }

  lemma {:induction false} DraftCount(spans: seq<Span>)
    ensures |Drafts(spans)| == Entries(spans)
  {
    if spans != [] {
      var n := |spans| - 1;
      DraftCount(spans[..n]);
      EntriesAppend(spans[..n], [spans[n]]);
      assert spans == spans[..n] + [spans[n]] && [spans[n]][1..] == [];
    }
  }

  /** The drafting loops. */
  method DraftEvents(spans: seq<Span>) returns (drafts: seq<Draft>)
    ensures drafts == Drafts(spans)
  {
    drafts := [];
    for n := 0 to |spans|
      invariant drafts == Drafts(spans[..n])
    {
      var s := spans[n];
      ghost var before := drafts;
      drafts := drafts + [StartOf(s)];
      for k := 0 to |s.events|
        invariant drafts == before + ([StartOf(s)] + EventDrafts(s)[..k])
      {
        drafts := drafts + [EventDraft(s, s.events[k])];
      }
      drafts := drafts + [EndOf(s)];
      assert EventDrafts(s)[..|s.events|] == EventDrafts(s);
      assert spans[..n + 1][..n] == spans[..n] && spans[..n + 1][n] == s;
      assert drafts == before + DraftsOf(s);
    }
    assert spans[..|spans|] == spans;
  }

  // ---- sorting ----------------------------------------------------------------------------------------

  /** The sort key: nanoseconds, then start before event before completion, then span id. */
  predicate Earlier(a: Draft, b: Draft) {
    || a.time < b.time
    || (a.time == b.time && (a.rank < b.rank || (a.rank == b.rank && Less(a.spanId, b.spanId))))
  }

  predicate SameKey(a: Draft, b: Draft) {
    a.time == b.time && a.rank == b.rank && a.spanId == b.spanId
  }

  lemma {:induction false} EarlierIsAnOrder(a: Draft, b: Draft, c: Draft)
    ensures !Earlier(a, a)
    ensures Earlier(a, b) || SameKey(a, b) || Earlier(b, a)
    ensures !(Earlier(a, b) && Earlier(b, a))
    ensures !Earlier(b, a) && !Earlier(c, b) ==> !Earlier(c, a)
  {
    LessIrreflexive(a.spanId);
    LessTotal(a.spanId, b.spanId);
    LessTotal(b.spanId, c.spanId);
    if Less(a.spanId, b.spanId) && Less(b.spanId, a.spanId) {
      LessTransitive(a.spanId, b.spanId, a.spanId);
    }
    if Less(c.spanId, a.spanId) && Less(a.spanId, b.spanId) {
      LessTransitive(c.spanId, a.spanId, b.spanId);
    }
    if Less(b.spanId, c.spanId) && Less(c.spanId, a.spanId) {
      LessTransitive(b.spanId, c.spanId, a.spanId);
    }
  }

  function InsertDraft(d: Draft, ds: seq<Draft>): seq<Draft> {
    if ds == [] || !Earlier(ds[0], d) then [d] + ds else [ds[0]] + InsertDraft(d, ds[1..])
  }

  /** `drafts.sort(key=...)`, which is stable. */
  function SortDrafts(ds: seq<Draft>): seq<Draft> {
    if ds == [] then [] else InsertDraft(ds[0], SortDrafts(ds[1..]))
  }

  ghost predicate InOrder(ds: seq<Draft>) {
    forall i, j :: 0 <= i < j < |ds| ==> !Earlier(ds[j], ds[i])
  }

  lemma {:induction false} InsertKeeps(d: Draft, ds: seq<Draft>)
    ensures multiset(InsertDraft(d, ds)) == multiset(ds) + multiset{d}
  {
    if ds != [] && Earlier(ds[0], d) {
      InsertKeeps(d, ds[1..]);
      assert ds == [ds[0]] + ds[1..];
    }
  }

  lemma {:induction false} SortKeeps(ds: seq<Draft>)
    ensures multiset(SortDrafts(ds)) == multiset(ds)
  {
    if ds != [] {
      SortKeeps(ds[1..]);
      InsertKeeps(ds[0], SortDrafts(ds[1..]));
      assert ds == [ds[0]] + ds[1..];
    }
  }

  lemma {:induction false} InOrderCons(first: Draft, rest: seq<Draft>)
    requires InOrder(rest) && forall j :: 0 <= j < |rest| ==> !Earlier(rest[j], first)
    ensures InOrder([first] + rest)
  {
  }

  lemma {:induction false} InsertKeepsFirst(first: Draft, d: Draft, ds: seq<Draft>)
    requires Earlier(first, d) && forall j :: 0 <= j < |ds| ==> !Earlier(ds[j], first)
    ensures forall j :: 0 <= j < |InsertDraft(d, ds)| ==> !Earlier(InsertDraft(d, ds)[j], first)
  {
    var inserted := InsertDraft(d, ds);
    InsertKeeps(d, ds);
    EarlierIsAnOrder(first, d, d);
    forall j | 0 <= j < |inserted| ensures !Earlier(inserted[j], first) {
      assert inserted[j] in multiset(inserted);
      assert inserted[j] == d || inserted[j] in ds;
    }
  }

  lemma {:induction false} InsertSorts(d: Draft, ds: seq<Draft>)
    requires InOrder(ds)
    ensures InOrder(InsertDraft(d, ds))
  {
    if ds == [] {
    } else if Earlier(ds[0], d) {
      InsertSorts(d, ds[1..]);
      InsertKeepsFirst(ds[0], d, ds[1..]);
      InOrderCons(ds[0], InsertDraft(d, ds[1..]));
    } else {
      forall j | 0 <= j < |ds| ensures !Earlier(ds[j], d) {
        EarlierIsAnOrder(d, ds[0], ds[j]);
      }
      InOrderCons(d, ds);
    }
  }

  lemma {:induction false} SortSorts(ds: seq<Draft>)
    ensures InOrder(SortDrafts(ds))
  {
    if ds != [] {
      SortSorts(ds[1..]);
      InsertSorts(ds[0], SortDrafts(ds[1..]));
    }
  }

  function WithKey(d: Draft): Draft -> bool {
    (other: Draft) => SameKey(other, d)
  }

  lemma {:induction false} InsertIsStable(d: Draft, ds: seq<Draft>, k: Draft)
    ensures Filter(WithKey(k), InsertDraft(d, ds)) == Filter(WithKey(k), [d] + ds)
  {
    assert ([d] + ds)[1..] == ds;
    if ds != [] && Earlier(ds[0], d) {
      var inserted := InsertDraft(d, ds[1..]);
      InsertIsStable(d, ds[1..], k);
      EarlierIsAnOrder(ds[0], d, d);
      assert ([ds[0]] + inserted)[1..] == inserted;
      assert ([d] + ds[1..])[1..] == ds[1..];
      LessIrreflexive(d.spanId);
      assert !(SameKey(ds[0], k) && SameKey(d, k));
    }
  }

  /** Entries with one key stay in the order in which they were drafted. */
  lemma {:induction false} SortIsStable(ds: seq<Draft>, k: Draft)
    ensures Filter(WithKey(k), SortDrafts(ds)) == Filter(WithKey(k), ds)
  {
    if ds != [] {
      var sorted := SortDrafts(ds[1..]);
      SortIsStable(ds[1..], k);
      InsertIsStable(ds[0], sorted, k);
      assert ([ds[0]] + sorted)[1..] == sorted;
    }
  }

  // ---- the trace ----------------------------------------------------------------------------------------

  /** Nanoseconds to timestamps: any conversion that never turns time back. */
  type Clock = nat -> int

  ghost predicate Monotone(clock: Clock) {
    forall a: nat, b: nat :: a <= b ==> clock(a) <= clock(b)
  }

  function EventsFrom(traceId: string, ds: seq<Draft>, clock: Clock): (events: seq<Event>)
    ensures |events| == |ds|
    ensures forall i :: 0 <= i < |ds| ==> events[i] == Event(traceId, i, clock(ds[i].time), ds[i])
  {
    seq(|ds|, i requires 0 <= i < |ds| => Event(traceId, i, clock(ds[i].time), ds[i]))
  }

  function TraceOf(traceId: string, spans: seq<Span>, clock: Clock): Trace {
    Trace(traceId, EventsFrom(traceId, SortDrafts(Drafts(spans)), clock))
  }

  /** `_trace_from_spans`. */
  method TraceFromSpans(traceId: string, spans: seq<Span>, clock: Clock) returns (trace: Trace)
    ensures trace == TraceOf(traceId, spans, clock)
  {
    var drafts := DraftEvents(spans);
    trace := Trace(traceId, EventsFrom(traceId, SortDrafts(drafts), clock));
  }

  /** `events_must_form_one_ordered_trace`. */
  ghost predicate ValidTrace(trace: Trace) {
    && |trace.events| >= 2
    && (forall i :: 0 <= i < |trace.events| ==>
      trace.events[i].sequence == i && trace.events[i].traceId == trace.traceId)
    && forall i :: 0 < i < |trace.events| ==> trace.events[i - 1].timestamp <= trace.events[i].timestamp
  }

  lemma {:induction false} SortedCount(spans: seq<Span>)
    ensures |SortDrafts(Drafts(spans))| == Entries(spans)
  {
    DraftCount(spans);
    SortKeeps(Drafts(spans));
    assert |multiset(SortDrafts(Drafts(spans)))| == |multiset(Drafts(spans))|;
  }

  lemma {:induction false} SortedTimes(ds: seq<Draft>, clock: Clock, i: nat)
    requires Monotone(clock) && 0 < i < |ds| && InOrder(ds)
    ensures clock(ds[i - 1].time) <= clock(ds[i].time)
  {
    assert !Earlier(ds[i], ds[i - 1]);
  }

  /** Every trace is valid and has two entries a span and one an event. */
  lemma {:induction false} TraceIsValid(traceId: string, spans: seq<Span>, clock: Clock)
    requires Monotone(clock)
    ensures |TraceOf(traceId, spans, clock).events| == Entries(spans)
    ensures ValidTrace(TraceOf(traceId, spans, clock)) <==> spans != []
  {
    var sorted := SortDrafts(Drafts(spans));
    SortedCount(spans);
    SortSorts(Drafts(spans));
    forall i | 0 < i < |sorted| ensures clock(sorted[i - 1].time) <= clock(sorted[i].time) {
      SortedTimes(sorted, clock, i);
    }
  }

  /** The entries of the trace are exactly those of its spans. */
  lemma {:induction false} NothingIsLost(traceId: string, spans: seq<Span>, clock: Clock, d: Draft)
    ensures (exists i :: 0 <= i < |TraceOf(traceId, spans, clock).events|
              && TraceOf(traceId, spans, clock).events[i].draft == d)
            <==> d in Drafts(spans)
  {
    var sorted := SortDrafts(Drafts(spans));
    SortKeeps(Drafts(spans));
    assert d in multiset(sorted) <==> d in multiset(Drafts(spans));
    if d in sorted {
      var i :| 0 <= i < |sorted| && sorted[i] == d;
      assert TraceOf(traceId, spans, clock).events[i].draft == d;
    }
  }

  /** No span completes before it starts: its start precedes its completion in the trace. */
  lemma {:induction false} StartsBeforeItCompletes(
    traceId: string, spans: seq<Span>, clock: Clock, s: Span, i: nat, j: nat)
    requires s in spans
    requires var events := TraceOf(traceId, spans, clock).events;
             i < |events| && j < |events| && events[i].draft == StartOf(s) && events[j].draft == EndOf(s)
    ensures i < j
  {
    var sorted := SortDrafts(Drafts(spans));
    SortSorts(Drafts(spans));
    assert Earlier(sorted[i], sorted[j]);
  }

  // ---- the import ---------------------------------------------------------------------------------------

  /** The keys of a dictionary, sorted. */
  method SortedKeys(groups: map<string, seq<Span>>) returns (ids: seq<string>)
    ensures forall i, j :: 0 <= i < j < |ids| ==> Less(ids[i], ids[j])
    ensures forall id :: id in ids <==> id in groups
  {
    ids := [];
    var rest := groups.Keys;
    while rest != {}
      invariant forall i, j :: 0 <= i < j < |ids| ==> Less(ids[i], ids[j])
      invariant forall id :: id in groups <==> id in rest || id in ids
      invariant forall id :: id in rest ==> id !in ids
      decreases |rest|
    {
      var id :| id in rest;
      rest := rest - {id};
      ids := InsertId(id, ids);
    }
  }

  method InsertId(id: string, ids: seq<string>) returns (longer: seq<string>)
    requires forall i, j :: 0 <= i < j < |ids| ==> Less(ids[i], ids[j])
    requires id !in ids
    ensures forall i, j :: 0 <= i < j < |longer| ==> Less(longer[i], longer[j])
    ensures forall other :: other in longer <==> other == id || other in ids
  {
    var k := 0;
    while k < |ids| && Less(ids[k], id)
      invariant k <= |ids| && forall i :: 0 <= i < k ==> Less(ids[i], id)
    {
      k := k + 1;
    }
    longer := ids[..k] + [id] + ids[k..];
    if k < |ids| {
      LessTotal(ids[k], id);
      forall j | k < j < |ids| ensures Less(id, ids[j]) {
        LessTransitive(id, ids[k], ids[j]);
      }
    }
    assert ids == ids[..k] + ids[k..];
  }

  /** The traces of these spans, one a trace id, in order of their ids. */
  ghost predicate TracesOf(traces: seq<Trace>, spans: seq<Span>, clock: Clock) {
    && (forall i, j :: 0 <= i < j < |traces| ==> Less(traces[i].traceId, traces[j].traceId))
    && (forall i :: 0 <= i < |traces| ==>
          var mine := Filter(InTrace(traces[i].traceId), spans);
          mine != [] && traces[i] == TraceOf(traces[i].traceId, mine, clock))
    && forall k :: 0 <= k < |spans| ==> exists i :: 0 <= i < |traces| && traces[i].traceId == spans[k].traceId
  }

  /** `import_otlp_data` with redaction off. */
  method ImportOtlp(export_: Export, clock: Clock) returns (outcome: Result<seq<Trace>, Error>)
    ensures outcome.Ok? <==> Importable(AllRaw(export_)) && AllRaw(export_) != []
    ensures outcome.Ok? ==> WellFormed(export_)
    ensures outcome.Ok? ==> exists spans ::
              Parsed(AllRaw(export_), spans) && DistinctKeys(spans) && TracesOf(outcome.value, spans, clock)
  {
    var parsed := ParseOtlp(export_);
    if parsed.Err? {
      return Err(parsed.error);
    }
    ImportableIsWellFormed(export_);
    ghost var spans :| Parsed(AllRaw(export_), spans) && DistinctKeys(spans) && Grouped(parsed.value, spans);
    var traces := BuildTraces(parsed.value, clock, spans);
    outcome := Ok(traces);
  }

  method BuildTraces(groups: map<string, seq<Span>>, clock: Clock, ghost spans: seq<Span>) returns (traces: seq<Trace>)
    requires Grouped(groups, spans)
    ensures TracesOf(traces, spans, clock)
  {
    var ids := SortedKeys(groups);
    traces := [];
    for n := 0 to |ids|
      invariant |traces| == n
      invariant forall i :: 0 <= i < n ==>
                  && traces[i].traceId == ids[i] && ids[i] in groups
                  && traces[i] == TraceOf(ids[i], groups[ids[i]], clock)
    {
      assert ids[n] in groups;
      var trace := TraceFromSpans(ids[n], groups[ids[n]], clock);
      traces := traces + [trace];
    }
    forall k | 0 <= k < |spans| ensures exists i :: 0 <= i < |traces| && traces[i].traceId == spans[k].traceId {
      assert spans[k].traceId in ids;
    }
  }

  // ---- conservation ---------------------------------------------------------------------------------------

  function TotalEvents(traces: seq<Trace>): nat {
    if traces == [] then 0 else |traces[0].events| + TotalEvents(traces[1..])
  }

  lemma {:induction false} SpanHasItsTrace(traces: seq<Trace>, spans: seq<Span>, clock: Clock, s: Span) returns (i: nat)
    requires TracesOf(traces, spans, clock) && s in spans
    ensures i < |traces| && traces[i].traceId == s.traceId
    ensures forall j :: 0 <= j < |traces| && traces[j].traceId == s.traceId ==> i == j
  {
    var k :| 0 <= k < |spans| && spans[k] == s;
    i :| 0 <= i < |traces| && traces[i].traceId == spans[k].traceId;
    LessIrreflexive(s.traceId);
  }

  lemma {:induction false} FilterHas(spans: seq<Span>, id: string, s: Span)
    ensures s in Filter(InTrace(id), spans) <==> s in spans && s.traceId == id
  {
    if spans != [] {
      FilterHas(spans[1..], id, s);
      assert spans == [spans[0]] + spans[1..];
    }
  }

  function GroupEntries(ids: seq<string>, spans: seq<Span>): nat {
    if ids == [] then 0 else Entries(Filter(InTrace(ids[0]), spans)) + GroupEntries(ids[1..], spans)
  }

  lemma {:induction false} OneSpanCounts(ids: seq<string>, s: Span, spans: seq<Span>)
    requires Distinct(ids)
    ensures GroupEntries(ids, [s] + spans) == GroupEntries(ids, spans) + if s.traceId in ids then 2 + |s.events| else 0
  {
    assert ([s] + spans)[1..] == spans;
    if ids != [] {
      OneSpanCounts(ids[1..], s, spans);
      assert ids == [ids[0]] + ids[1..];
      var rest := Filter(InTrace(ids[0]), spans);
      assert ([s] + rest)[1..] == rest && [] + rest == rest;
    }
  }

  lemma {:induction false} GroupsAddUp(ids: seq<string>, spans: seq<Span>)
    requires Distinct(ids) && forall k :: 0 <= k < |spans| ==> spans[k].traceId in ids
    ensures GroupEntries(ids, spans) == Entries(spans)
  {
    if spans == [] {
      NoEntries(ids);
    } else {
      GroupsAddUp(ids, spans[1..]);
      OneSpanCounts(ids, spans[0], spans[1..]);
      assert spans == [spans[0]] + spans[1..];
    }
  }

  lemma {:induction false} NoEntries(ids: seq<string>)
    ensures GroupEntries(ids, []) == 0
  {
    if ids != [] {
      NoEntries(ids[1..]);
    }
  }

  lemma {:induction false} EventsPerGroup(traces: seq<Trace>, ids: seq<string>, spans: seq<Span>, clock: Clock)
    requires Monotone(clock) && |ids| == |traces|
    requires forall i :: 0 <= i < |ids| ==> traces[i] == TraceOf(ids[i], Filter(InTrace(ids[i]), spans), clock)
    ensures TotalEvents(traces) == GroupEntries(ids, spans)
  {
    if ids != [] {
      TraceIsValid(ids[0], Filter(InTrace(ids[0]), spans), clock);
      EventsPerGroup(traces[1..], ids[1..], spans, clock);
    }
  }

  /** No entry is lost or doubled: the traces hold two entries a span and one an event altogether. */
  lemma {:induction false} EntriesAreConserved(traces: seq<Trace>, spans: seq<Span>, clock: Clock)
    requires Monotone(clock) && TracesOf(traces, spans, clock)
    ensures TotalEvents(traces) == Entries(spans)
    ensures forall i :: 0 <= i < |traces| ==> ValidTrace(traces[i])
  {
    var ids := seq(|traces|, i requires 0 <= i < |traces| => traces[i].traceId);
    forall i, j | 0 <= i < j < |ids| ensures ids[i] != ids[j] {
      LessIrreflexive(ids[i]);
      assert Less(traces[i].traceId, traces[j].traceId);
    }
    forall k | 0 <= k < |spans| ensures spans[k].traceId in ids {
      var i := SpanHasItsTrace(traces, spans, clock, spans[k]);
      assert ids[i] == spans[k].traceId;
    }
    EventsPerGroup(traces, ids, spans, clock);
    GroupsAddUp(ids, spans);
    forall i | 0 <= i < |traces| ensures ValidTrace(traces[i]) {
      TraceIsValid(ids[i], Filter(InTrace(ids[i]), spans), clock);
    }
  }

  // ---- the entries of one span ------------------------------------------------------------------------------

  function Names(spanId: string): Draft -> bool {
    (d: Draft) => d.spanId == spanId
  }

  lemma {:induction false} DraftsNameTheirSpan(s: Span, spanId: string)
    ensures Filter(Names(spanId), DraftsOf(s)) == if s.spanId == spanId then DraftsOf(s) else []
  {
    if s.spanId == spanId {
      FilterAll(Names(spanId), DraftsOf(s));
    } else {
      FilterNone(Names(spanId), DraftsOf(s));
    }
  }

  lemma {:induction false} NamingAppends(spans: seq<Span>, spanId: string)
    requires spans != []
    ensures var n := |spans| - 1;
            Filter(Names(spanId), Drafts(spans)) ==
            Filter(Names(spanId), Drafts(spans[..n])) + if spans[n].spanId == spanId then DraftsOf(spans[n]) else []
  {
    var n := |spans| - 1;
    FilterAppend(Names(spanId), Drafts(spans[..n]), DraftsOf(spans[n]));
    DraftsNameTheirSpan(spans[n], spanId);
  }

  lemma {:induction false} NobodyNames(spans: seq<Span>, spanId: string)
    requires forall i :: 0 <= i < |spans| ==> spans[i].spanId != spanId
    ensures Filter(Names(spanId), Drafts(spans)) == []
  {
    if spans != [] {
      NobodyNames(spans[..|spans| - 1], spanId);
      NamingAppends(spans, spanId);
    }
  }

  ghost predicate DistinctSpanIds(spans: seq<Span>) {
    forall i, j :: 0 <= i < j < |spans| ==> spans[i].spanId != spans[j].spanId
  }

  /** Among the drafts of spans with different ids, those naming a span are its own. */
  lemma {:induction false} DraftsNaming(spans: seq<Span>, s: Span)
    requires DistinctSpanIds(spans) && s in spans
    ensures Filter(Names(s.spanId), Drafts(spans)) == DraftsOf(s)
  {
    var n := |spans| - 1;
    NamingAppends(spans, s.spanId);
    assert spans == spans[..n] + [spans[n]];
    if s == spans[n] {
      NobodyNames(spans[..n], s.spanId);
      assert [] + DraftsOf(s) == DraftsOf(s);
    } else {
      var k :| 0 <= k < n && spans[k] == s;
      assert spans[..n][k] == s;
      DraftsNaming(spans[..n], s);
      assert DraftsOf(s) + [] == DraftsOf(s);
    }
  }

  lemma {:induction false} FilterInsert(p: Draft -> bool, d: Draft, ds: seq<Draft>)
    ensures multiset(Filter(p, InsertDraft(d, ds))) ==
              multiset(Filter(p, ds)) + if p(d) then multiset{d} else multiset{}
  {
    if ds != [] && Earlier(ds[0], d) {
      FilterInsert(p, d, ds[1..]);
      assert ([ds[0]] + InsertDraft(d, ds[1..]))[1..] == InsertDraft(d, ds[1..]);
    } else {
      assert ([d] + ds)[1..] == ds;
    }
  }

  lemma {:induction false} FilterSort(p: Draft -> bool, ds: seq<Draft>)
    ensures multiset(Filter(p, SortDrafts(ds))) == multiset(Filter(p, ds))
  {
    if ds != [] {
      FilterSort(p, ds[1..]);
      FilterInsert(p, ds[0], SortDrafts(ds[1..]));
    }
  }

  lemma {:induction false} OneTraceHasDistinctIds(spans: seq<Span>, id: string)
    requires DistinctKeys(spans)
    ensures DistinctSpanIds(Filter(InTrace(id), spans))
  {
    if spans != [] {
      var rest := Filter(InTrace(id), spans[1..]);
      OneTraceHasDistinctIds(spans[1..], id);
      forall j | 0 <= j < |rest| && spans[0].traceId == id ensures spans[0].spanId != rest[j].spanId {
        FilterHas(spans[1..], id, rest[j]);
        var k :| 0 <= k < |spans[1..]| && spans[1..][k] == rest[j];
        assert KeyOf(spans[0]) != KeyOf(spans[k + 1]);
      }
    }
  }

  function DraftsIn(trace: Trace): (drafts: seq<Draft>)
    ensures |drafts| == |trace.events|
    ensures forall i :: 0 <= i < |drafts| ==> drafts[i] == trace.events[i].draft
  {
    seq(|trace.events|, i requires 0 <= i < |trace.events| => trace.events[i].draft)
  }

  /**
   * Each span is in exactly one trace: only that trace has entries with its trace id, and the entries
   * there that name the span are its start, its events and its completion, each as often as it has it.
   */
  lemma {:induction false} EachSpanInOneTrace(
    traces: seq<Trace>, spans: seq<Span>, clock: Clock, s: Span) returns (i: nat)
    requires TracesOf(traces, spans, clock) && DistinctKeys(spans) && s in spans
    ensures i < |traces|
    ensures multiset(Filter(Names(s.spanId), DraftsIn(traces[i]))) == multiset(DraftsOf(s))
    ensures forall j, n :: 0 <= j < |traces| && 0 <= n < |traces[j].events| ==>
              (traces[j].events[n].traceId == s.traceId <==> j == i)
  {
    i := SpanHasItsTrace(traces, spans, clock, s);
    var mine := Filter(InTrace(s.traceId), spans);
    OneTraceHasDistinctIds(spans, s.traceId);
    FilterHas(spans, s.traceId, s);
    DraftsNaming(mine, s);
    FilterSort(Names(s.spanId), Drafts(mine));
    assert DraftsIn(traces[i]) == SortDrafts(Drafts(mine));
    forall j, n | 0 <= j < |traces| && 0 <= n < |traces[j].events|
      ensures traces[j].events[n].traceId == traces[j].traceId
    {
      assert traces[j] == TraceOf(traces[j].traceId, Filter(InTrace(traces[j].traceId), spans), clock);
    }
  }

  /** An entry of the trace, at the time of what it records. */
  predicate IsEntry(e: Event, clock: Clock, time: nat, kind: Kind, spanId: string, name: string) {
    && e.timestamp == clock(time) && e.draft.time == time
    && e.draft.kind == kind && e.draft.spanId == spanId && e.draft.name == name
  }

  /** The entry is one of the span's: its start, one of its events, or its completion, each at its own time. */
  ghost predicate Belongs(e: Event, clock: Clock, s: Span) {
    || IsEntry(e, clock, s.start, SpanStarted, s.spanId, s.name)
    || IsEntry(e, clock, s.end, SpanCompleted, s.spanId, s.name)
    || exists k :: 0 <= k < |s.events| &&
         IsEntry(e, clock, s.events[k].time, SpanEventObserved, s.spanId, s.events[k].name)
  }

  ghost predicate HasEntry(trace: Trace, clock: Clock, time: nat, kind: Kind, spanId: string, name: string) {
    exists n :: 0 <= n < |trace.events| && IsEntry(trace.events[n], clock, time, kind, spanId, name)
  }

  lemma {:induction false} MemberOfFilter(p: Draft -> bool, ds: seq<Draft>, d: Draft)
    ensures d in Filter(p, ds) <==> d in ds && p(d)
  {
    if ds != [] {
      MemberOfFilter(p, ds[1..], d);
      assert ds == [ds[0]] + ds[1..];
    }
  }

  /** Of the drafts naming the span, the trace holds exactly the span's. */
  lemma {:induction false} NamedDrafts(drafts: seq<Draft>, s: Span, d: Draft)
    requires multiset(Filter(Names(s.spanId), drafts)) == multiset(DraftsOf(s))
    ensures d in drafts && d.spanId == s.spanId <==> d in DraftsOf(s)
  {
    MemberOfFilter(Names(s.spanId), drafts, d);
    assert d in Filter(Names(s.spanId), drafts) <==> d in multiset(Filter(Names(s.spanId), drafts));
    assert d in DraftsOf(s) <==> d in multiset(DraftsOf(s));
    DraftsNameTheirSpan(s, s.spanId);
    MemberOfFilter(Names(s.spanId), DraftsOf(s), d);
  }

  lemma {:induction false} EntryAt(trace: Trace, clock: Clock, d: Draft)
    requires d in DraftsIn(trace)
    requires forall n :: 0 <= n < |trace.events| ==> trace.events[n].timestamp == clock(trace.events[n].draft.time)
    ensures HasEntry(trace, clock, d.time, d.kind, d.spanId, d.name)
  {
    var n :| 0 <= n < |DraftsIn(trace)| && DraftsIn(trace)[n] == d;
    assert IsEntry(trace.events[n], clock, d.time, d.kind, d.spanId, d.name);
  }

  lemma {:induction false} DraftIsOfSpan(s: Span, d: Draft)
    ensures d in DraftsOf(s) <==>
              || d == Draft(s.start, 0, s.spanId, SpanStarted, s.name)
              || d == Draft(s.end, 2, s.spanId, SpanCompleted, s.name)
              || exists k :: 0 <= k < |s.events| &&
                   d == Draft(s.events[k].time, 1, s.spanId, SpanEventObserved, s.events[k].name)
  {
    var events := EventDrafts(s);
    assert d in DraftsOf(s) <==> d == StartOf(s) || d in events || d == EndOf(s);
    assert forall k :: 0 <= k < |events| ==> events[k] == EventDraft(s, s.events[k]);
  }

  /** The trace of a span has entries at exactly its start, its event times and its end. */
  lemma {:induction false} SpanEntries(traces: seq<Trace>, spans: seq<Span>, clock: Clock, s: Span) returns (i: nat)
    requires TracesOf(traces, spans, clock) && DistinctKeys(spans) && s in spans
    ensures i < |traces| && traces[i].traceId == s.traceId
    ensures HasEntry(traces[i], clock, s.start, SpanStarted, s.spanId, s.name)
    ensures HasEntry(traces[i], clock, s.end, SpanCompleted, s.spanId, s.name)
    ensures forall k :: 0 <= k < |s.events| ==>
              HasEntry(traces[i], clock, s.events[k].time, SpanEventObserved, s.spanId, s.events[k].name)
    ensures forall n :: 0 <= n < |traces[i].events| && traces[i].events[n].draft.spanId == s.spanId ==>
              Belongs(traces[i].events[n], clock, s)
  {
    i := EachSpanInOneTrace(traces, spans, clock, s);
    var trace, drafts := traces[i], DraftsIn(traces[i]);
    assert trace == TraceOf(trace.traceId, Filter(InTrace(trace.traceId), spans), clock);
    forall d ensures d in drafts && d.spanId == s.spanId <==> d in DraftsOf(s) {
      NamedDrafts(drafts, s, d);
    }
    forall d | d in DraftsOf(s) ensures HasEntry(trace, clock, d.time, d.kind, d.spanId, d.name) {
      EntryAt(trace, clock, d);
    }
    DraftIsOfSpan(s, StartOf(s));
    DraftIsOfSpan(s, EndOf(s));
    forall k | 0 <= k < |s.events|
      ensures HasEntry(trace, clock, s.events[k].time, SpanEventObserved, s.spanId, s.events[k].name)
    {
      DraftIsOfSpan(s, EventDraft(s, s.events[k]));
    }
    forall n | 0 <= n < |trace.events| && trace.events[n].draft.spanId == s.spanId
      ensures Belongs(trace.events[n], clock, s)
    {
      assert drafts[n] in drafts;
      DraftIsOfSpan(s, drafts[n]);
    }
  }

  /** Starts come before events and events before completions. */
  function KindRank(kind: Kind): nat {
    match kind
    case SpanStarted => 0
    case SpanEventObserved => 1
    case SpanCompleted => 2
  }

  lemma {:induction false} RankIsOfKind(spans: seq<Span>, d: Draft)
    requires d in Drafts(spans)
    ensures d.rank == KindRank(d.kind)
  {
    var n := |spans| - 1;
    if d in DraftsOf(spans[n]) {
      DraftIsOfSpan(spans[n], d);
    } else {
      RankIsOfKind(spans[..n], d);
    }
  }

  /** Entries stand in order of time, then of kind, then of span id. */
  lemma {:induction false} TraceOrder(traceId: string, spans: seq<Span>, clock: Clock, a: nat, b: nat)
    requires a < b < |TraceOf(traceId, spans, clock).events|
    ensures var x, y := TraceOf(traceId, spans, clock).events[a].draft, TraceOf(traceId, spans, clock).events[b].draft;
            && x.time <= y.time
            && (x.time == y.time ==> KindRank(x.kind) <= KindRank(y.kind))
            && (x.time == y.time && x.kind == y.kind ==> x.spanId == y.spanId || Less(x.spanId, y.spanId))
  {
    var sorted := SortDrafts(Drafts(spans));
    SortSorts(Drafts(spans));
    SortKeeps(Drafts(spans));
    assert sorted[a] in multiset(sorted) && sorted[b] in multiset(sorted);
    RankIsOfKind(spans, sorted[a]);
    RankIsOfKind(spans, sorted[b]);
    assert !Earlier(sorted[b], sorted[a]);
    LessTotal(sorted[a].spanId, sorted[b].spanId);
  }
}
