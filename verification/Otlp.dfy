/**
 * The OTLP importer of ingest.py: spans are grouped by trace, drafted into events, and put in order
 * by a stable sort. Parsing one raw span, scope or resource is a given outcome.
 */
module Otlp {
  import opened Prelude

  datatype SpanEvent = SpanEvent(time: nat, name: string)

  datatype SpanFields = Span(
    traceId: string, spanId: string, name: string, start: nat, end: nat, events: seq<SpanEvent>)

  /** A span that ends before it starts is refused by `_parse_span`. */
  type Span = s: SpanFields | s.start <= s.end witness Span("", "", "", 0, 0, [])

  /** `_parse_span`: a span, or the error that aborts the import. */
  type Raw = Option<Span>

  const UNREADABLE: Raw := None

  /** An element of scopeSpans: its spans, unless it, its scope or its attributes are malformed. */
  type Scope = Option<seq<Raw>>

  /** An element of resourceSpans: its scopeSpans, unless it or its resource is malformed. */
  type Resource = Option<seq<Scope>>

  /** The value under resourceSpans, unless it is no list. */
  type Export = Option<seq<Resource>>

  datatype Kind = SpanStarted | SpanEventObserved | SpanCompleted

  datatype Draft = Draft(time: nat, rank: nat, spanId: string, kind: Kind, name: string)

  datatype Event = Event(traceId: string, sequence: nat, timestamp: int, draft: Draft)

  datatype Trace = Trace(traceId: string, events: seq<Event>)

  datatype Error = TooManySpans | BadExport | BadResource | BadScope | BadSpan | DuplicateSpan | NoSpans

  const MAX_RECORDS: nat := 10_000

  type SpanKey = (string, string)

  // ---- flattening -----------------------------------------------------------------------------------

  function Flatten<T>(xss: seq<seq<T>>): seq<T> {
    if xss == [] then [] else Flatten(xss[..|xss| - 1]) + xss[|xss| - 1]
  }

  /** The raw spans of a scope; a malformed scope stands as one that does not parse. */
  function OfScope(scope: Scope): seq<Raw> {
    if scope.None? then [UNREADABLE] else scope.value
  }

  function OfResource(resource: Resource): seq<Raw> {
    if resource.None? then [UNREADABLE] else Flatten(MapSeq(OfScope, resource.value))
  }

  /** All raw spans in document order, with one that does not parse for each malformed part. */
  function AllRaw(export_: Export): seq<Raw> {
    if export_.None? then [UNREADABLE] else Flatten(MapSeq(OfResource, export_.value))
  }

  /** No part of the export around its spans is malformed. */
  predicate WellFormed(export_: Export) {
    && export_.Some?
    && forall r :: 0 <= r < |export_.value| ==>
         && export_.value[r].Some?
         && forall c :: 0 <= c < |export_.value[r].value| ==> export_.value[r].value[c].Some?
  }

  function KeyOf(span: Span): SpanKey {
    (span.traceId, span.spanId)
  }

  ghost predicate DistinctKeys(spans: seq<Span>) {
    forall i, j :: 0 <= i < j < |spans| ==>
      spans[i].traceId != spans[j].traceId || spans[i].spanId != spans[j].spanId
  }

  /** The raw spans are exactly these parsed ones. */
  ghost predicate Parsed(raws: seq<Raw>, spans: seq<Span>) {
    |raws| == |spans| && forall i :: 0 <= i < |raws| ==> raws[i] == Some(spans[i])
  }

  /** Every span parses, no key repeats, and the limit holds. */
  ghost predicate Importable(raws: seq<Raw>) {
    && |raws| <= MAX_RECORDS
    && exists spans :: Parsed(raws, spans) && DistinctKeys(spans)
  }

  function InTrace(traceId: string): Span -> bool {
    (span: Span) => span.traceId == traceId
  }

  /** The dictionary groups the spans by trace, in order. */
  ghost predicate Grouped(groups: map<string, seq<Span>>, spans: seq<Span>) {
    && (forall id :: id in groups ==> groups[id] != [] && groups[id] == Filter(InTrace(id), spans))
    && forall i :: 0 <= i < |spans| ==> spans[i].traceId in groups
  }

  ghost predicate KnowsKeys(seen: set<SpanKey>, spans: seq<Span>) {
    && (forall i :: 0 <= i < |spans| ==> KeyOf(spans[i]) in seen)
    && forall key :: key in seen ==> exists i :: 0 <= i < |spans| && KeyOf(spans[i]) == key
  }

  /** The state of `_parse_otlp` after these raw spans. */
  ghost predicate Holds(raws: seq<Raw>, spans: seq<Span>, groups: map<string, seq<Span>>, seen: set<SpanKey>) {
    Parsed(raws, spans) && DistinctKeys(spans) && Grouped(groups, spans) && KnowsKeys(seen, spans)
  }

  function GroupOf(groups: map<string, seq<Span>>, id: string): seq<Span> {
    if id in groups then groups[id] else []
  }

  lemma {:induction false} FilterGrows(spans: seq<Span>, s: Span, id: string)
    ensures Filter(InTrace(id), spans + [s]) == Filter(InTrace(id), spans) + if s.traceId == id then [s] else []
  {
    FilterAppend(InTrace(id), spans, [s]);
    if s.traceId == id {
      FilterOne(InTrace(id), [s], 0);
    } else {
      FilterNone(InTrace(id), [s]);
    }
  }

  lemma {:induction false} FilterFinds(spans: seq<Span>, id: string)
    ensures Filter(InTrace(id), spans) == [] <==> forall i :: 0 <= i < |spans| ==> spans[i].traceId != id
  {
    if spans != [] {
      FilterFinds(spans[1..], id);
      assert spans == [spans[0]] + spans[1..];
    }
  }

  lemma {:induction false} GroupIsFilter(groups: map<string, seq<Span>>, spans: seq<Span>, id: string)
    requires Grouped(groups, spans)
    ensures GroupOf(groups, id) == Filter(InTrace(id), spans)
  {
    FilterFinds(spans, id);
  }

  lemma {:induction false} GroupedGrows(groups: map<string, seq<Span>>, spans: seq<Span>, s: Span)
    requires Grouped(groups, spans)
    ensures Grouped(groups[s.traceId := GroupOf(groups, s.traceId) + [s]], spans + [s])
  {
    var grown := groups[s.traceId := GroupOf(groups, s.traceId) + [s]];
    forall id | id in grown ensures grown[id] != [] && grown[id] == Filter(InTrace(id), spans + [s]) {
      FilterGrows(spans, s, id);
      GroupIsFilter(groups, spans, id);
    }
  }

  lemma {:induction false} KeysGrow(seen: set<SpanKey>, spans: seq<Span>, s: Span)
    requires KnowsKeys(seen, spans) && DistinctKeys(spans)
    ensures KnowsKeys(seen + {KeyOf(s)}, spans + [s])
    ensures DistinctKeys(spans + [s]) <==> KeyOf(s) !in seen
  {
    var longer := spans + [s];
    assert forall i :: 0 <= i < |spans| ==> longer[i] == spans[i];
    forall key | key in seen + {KeyOf(s)} ensures exists i :: 0 <= i < |longer| && KeyOf(longer[i]) == key {
      if key in seen {
        var i :| 0 <= i < |spans| && KeyOf(spans[i]) == key;
        assert KeyOf(longer[i]) == key;
      } else {
        assert KeyOf(longer[|spans|]) == key;
      }
    }
    if KeyOf(s) in seen {
      var i :| 0 <= i < |spans| && KeyOf(spans[i]) == KeyOf(s);
      assert KeyOf(longer[i]) == KeyOf(longer[|spans|]);
    }
  }

  /** A parse is determined by its raw spans. */
  lemma {:induction false} ParsedIsUnique(raws: seq<Raw>, a: seq<Span>, b: seq<Span>)
    requires Parsed(raws, a) && Parsed(raws, b)
    ensures a == b
  {
    forall i | 0 <= i < |raws| ensures a[i] == b[i] {
      assert raws[i] == Some(a[i]) && raws[i] == Some(b[i]);
    }
  }

  /** What spoils a prefix spoils the whole. */
  lemma {:induction false} PrefixImportable(raws: seq<Raw>, more: seq<Raw>)
    requires Importable(raws + more)
    ensures Importable(raws)
  {
    var all := raws + more;
    var spans :| Parsed(all, spans) && DistinctKeys(spans);
    var before := spans[..|raws|];
    forall i | 0 <= i < |raws| ensures raws[i] == Some(before[i]) {
      assert all[i] == raws[i];
    }
    assert Parsed(raws, before) && DistinctKeys(before);
  }

  lemma {:induction false} BadSpanSpoils(raws: seq<Raw>)
    ensures !Importable(raws + [None])
  {
    var all := raws + [None];
    assert all[|raws|] == None;
  }

  lemma {:induction false} RepeatedSpanSpoils(raws: seq<Raw>, spans: seq<Span>, seen: set<SpanKey>, s: Span)
    requires Parsed(raws, spans) && DistinctKeys(spans) && KnowsKeys(seen, spans) && KeyOf(s) in seen
    ensures !Importable(raws + [Some(s)])
  {
    var all := raws + [Some(s)];
    assert all[|raws|] == Some(s);
    KeysGrow(seen, spans, s);
    forall whole | Parsed(all, whole) ensures whole == spans + [s] {
      forall i | 0 <= i < |raws| ensures raws[i] == Some(whole[..|raws|][i]) {
        assert all[i] == raws[i];
      }
      ParsedIsUnique(raws, spans, whole[..|raws|]);
      assert all[|raws|] == Some(whole[|raws|]);
    }
  }

  lemma {:induction false} AcceptedSpan(
    raws: seq<Raw>, spans: seq<Span>, groups: map<string, seq<Span>>, seen: set<SpanKey>, s: Span)
    requires Holds(raws, spans, groups, seen) && KeyOf(s) !in seen
    ensures Holds(raws + [Some(s)], spans + [s], groups[s.traceId := GroupOf(groups, s.traceId) + [s]],
              seen + {KeyOf(s)})
  {
    GroupedGrows(groups, spans, s);
    KeysGrow(seen, spans, s);
  }

  datatype State = State(groups: map<string, seq<Span>>, seen: set<SpanKey>, count: nat)

  /** The state reached after some raw spans of the export. */
  ghost predicate Reached(raws: seq<Raw>, state: State) {
    && state.count == |raws| <= MAX_RECORDS
    && exists spans :: Holds(raws, spans, state.groups, state.seen)
  }

  /** One scope, refused for its size before any of its spans is read. */
  method ParseScope(ghost before: seq<Raw>, scope: Scope, state: State) returns (outcome: Result<State, Error>)
    requires Reached(before, state)
    ensures outcome.Ok? ==> Reached(before + OfScope(scope), outcome.value)
    ensures outcome.Err? ==> !Importable(before + OfScope(scope))
  {
    if scope.None? {
      BadSpanSpoils(before);
      return Err(BadScope);
    }
    outcome := ParseSpans(before, scope.value, state);
  }

  /** The spans of one scope. */
  method ParseSpans(ghost before: seq<Raw>, scope: seq<Raw>, state: State) returns (outcome: Result<State, Error>)
    requires Reached(before, state)
    ensures outcome.Ok? ==> Reached(before + scope, outcome.value)
    ensures outcome.Err? ==> !Importable(before + scope)
  {
    if state.count + |scope| > MAX_RECORDS {
      return Err(TooManySpans);
    }
    var now := state;
    assert before + scope[..0] == before;
    for n := 0 to |scope|
      invariant Reached(before + scope[..n], now)
    {
      assert before + scope[..n + 1] == before + scope[..n] + [scope[n]];
      assert before + scope == before + scope[..n + 1] + scope[n + 1..];
      var next := ParseOne(before + scope[..n], scope[n], now);
      if next.Err? {
        NotImportable(before + scope[..n + 1], scope[n + 1..]);
        return Err(next.error);
      }
      now := next.value;
    }
    assert scope[..|scope|] == scope;
    outcome := Ok(now);
  }

  lemma {:induction false} NotImportable(raws: seq<Raw>, more: seq<Raw>)
    requires !Importable(raws)
    ensures !Importable(raws + more)
  {
    if Importable(raws + more) {
      PrefixImportable(raws, more);
    }
  }

  function Accept(state: State, s: Span): State {
    State(state.groups[s.traceId := GroupOf(state.groups, s.traceId) + [s]], state.seen + {KeyOf(s)}, state.count + 1)
  }

  lemma {:induction false} HeldSpans(raws: seq<Raw>, state: State) returns (spans: seq<Span>)
    requires Reached(raws, state)
    ensures Holds(raws, spans, state.groups, state.seen)
  {
    spans :| Holds(raws, spans, state.groups, state.seen);
  }

  lemma {:induction false} AcceptReaches(before: seq<Raw>, state: State, s: Span)
    requires Reached(before, state) && KeyOf(s) !in state.seen && state.count < MAX_RECORDS
    ensures Reached(before + [Some(s)], Accept(state, s))
  {
    var spans := HeldSpans(before, state);
    AcceptedSpan(before, spans, state.groups, state.seen, s);
    HeldIsReached(before + [Some(s)], spans + [s], Accept(state, s));
  }

  lemma {:induction false} HeldIsReached(raws: seq<Raw>, spans: seq<Span>, state: State)
    requires Holds(raws, spans, state.groups, state.seen) && state.count == |raws| <= MAX_RECORDS
    ensures Reached(raws, state)
  {
  }

  lemma {:induction false} RepetitionSpoils(before: seq<Raw>, state: State, s: Span)
    requires Reached(before, state) && KeyOf(s) in state.seen
    ensures !Importable(before + [Some(s)])
  {
    var spans :| Holds(before, spans, state.groups, state.seen);
    RepeatedSpanSpoils(before, spans, state.seen, s);
  }

  /** One span: it is parsed, checked against the ids seen, and appended to its trace. */
  method ParseOne(ghost before: seq<Raw>, raw: Raw, state: State) returns (outcome: Result<State, Error>)
    requires Reached(before, state)
    ensures outcome.Ok? ==> Reached(before + [raw], outcome.value)
    ensures outcome.Err? ==> !Importable(before + [raw])
  {
    if state.count + 1 > MAX_RECORDS {
      return Err(TooManySpans);
    }
    if raw.None? {
      BadSpanSpoils(before);
      return Err(BadSpan);
    }
    var s := raw.value;
    if KeyOf(s) in state.seen {
      RepetitionSpoils(before, state, s);
      return Err(DuplicateSpan);
    }
    AcceptReaches(before, state, s);
    outcome := Ok(Accept(state, s));
  }

  /** One resource. */
  method ParseResource(ghost before: seq<Raw>, resource: Resource, state: State) returns (outcome: Result<State, Error>)
    requires Reached(before, state)
    ensures outcome.Ok? ==> Reached(before + OfResource(resource), outcome.value)
    ensures outcome.Err? ==> !Importable(before + OfResource(resource))
  {
    if resource.None? {
      BadSpanSpoils(before);
      return Err(BadResource);
    }
    outcome := ParseScopes(before, resource.value, state);
  }

  /** The scopes of one resource. */
  method ParseScopes(ghost before: seq<Raw>, scopes: seq<Scope>, state: State) returns (outcome: Result<State, Error>)
    requires Reached(before, state)
    ensures outcome.Ok? ==> Reached(before + Flatten(MapSeq(OfScope, scopes)), outcome.value)
    ensures outcome.Err? ==> !Importable(before + Flatten(MapSeq(OfScope, scopes)))
  {
    var now := state;
    ghost var flat := MapSeq(OfScope, scopes);
    assert before + Flatten(flat[..0]) == before;
    for n := 0 to |scopes|
      invariant Reached(before + Flatten(flat[..n]), now)
    {
      FlattenStep(flat, n);
      AppendAssociates(before, Flatten(flat[..n]), flat[n]);
      var next := ParseScope(before + Flatten(flat[..n]), scopes[n], now);
      if next.Err? {
        SpoiledEarly(before, flat, n);
        return Err(next.error);
      }
      now := next.value;
    }
    assert flat[..|flat|] == flat;
    outcome := Ok(now);
  }

  /** What spoils the import up to the n-th part spoils it altogether. */
  lemma {:induction false} SpoiledEarly(before: seq<Raw>, parts: seq<seq<Raw>>, n: nat)
    requires n < |parts| && !Importable(before + Flatten(parts[..n]) + parts[n])
    ensures !Importable(before + Flatten(parts))
  {
    FlattenStep(parts, n);
    var more := FlattenRest(parts, n + 1);
    NotImportable(before + Flatten(parts[..n]) + parts[n], more);
    assert before + Flatten(parts) == before + Flatten(parts[..n]) + parts[n] + more;
  }

  lemma {:induction false} FlattenStep<T>(xss: seq<seq<T>>, n: nat)
    requires n < |xss|
    ensures Flatten(xss[..n + 1]) == Flatten(xss[..n]) + xss[n]
  {
    assert xss[..n + 1][..n] == xss[..n];
  }

  lemma {:induction false} FlattenRest<T>(xss: seq<seq<T>>, n: nat) returns (more: seq<T>)
    requires n <= |xss|
    ensures Flatten(xss) == Flatten(xss[..n]) + more
    decreases |xss| - n
  {
    if n == |xss| {
      more := [];
      assert xss[..n] == xss && Flatten(xss) + [] == Flatten(xss);
    } else {
      more := FlattenRest(xss, n + 1);
      FlattenStep(xss, n);
      assert Flatten(xss[..n]) + xss[n] + more == Flatten(xss[..n]) + (xss[n] + more);
      more := xss[n] + more;
    }
  }

  /** `_parse_otlp`: succeeds exactly on importable, nonempty exports, and groups every span by its trace. */
  method ParseOtlp(export_: Export) returns (outcome: Result<map<string, seq<Span>>, Error>)
    ensures outcome.Ok? <==> Importable(AllRaw(export_)) && AllRaw(export_) != []
    ensures outcome.Ok? ==> exists spans ::
              Parsed(AllRaw(export_), spans) && DistinctKeys(spans) && Grouped(outcome.value, spans)
  {
    if export_.None? {
      BadSpanSpoils([]);
      return Err(BadExport);
    }
    var parsed := ParseResources(export_.value);
    if parsed.Err? {
      return Err(parsed.error);
    }
    var state := parsed.value;
    ghost var spans :| Holds(AllRaw(export_), spans, state.groups, state.seen);
    GroupsTell(AllRaw(export_), spans, state.groups, state.seen);
    if state.groups == map[] {
      return Err(NoSpans);
    }
    outcome := Ok(state.groups);
  }

  method ParseResources(resources: seq<Resource>) returns (outcome: Result<State, Error>)
    ensures outcome.Ok? ==> Reached(Flatten(MapSeq(OfResource, resources)), outcome.value)
    ensures outcome.Err? ==> !Importable(Flatten(MapSeq(OfResource, resources)))
  {
    var state := State(map[], {}, 0);
    ghost var flat := MapSeq(OfResource, resources);
    assert Holds([], [], map[], {});
    assert Flatten(flat[..0]) == [];
    for n := 0 to |resources|
      invariant Reached(Flatten(flat[..n]), state)
    {
      FlattenStep(flat, n);
      var next := ParseResource(Flatten(flat[..n]), resources[n], state);
      if next.Err? {
        assert [] + Flatten(flat[..n]) == Flatten(flat[..n]) && [] + Flatten(flat) == Flatten(flat);
        SpoiledEarly([], flat, n);
        return Err(next.error);
      }
      state := next.value;
    }
    assert flat[..|flat|] == flat;
    outcome := Ok(state);
  }

  lemma {:induction false} FlattenLacks<T>(xss: seq<seq<T>>, k: nat, x: T)
    requires k < |xss| && x !in Flatten(xss)
    ensures x !in xss[k]
  {
    if k < |xss| - 1 {
      FlattenLacks(xss[..|xss| - 1], k, x);
    }
  }

  lemma {:induction false} OneUnreadable()
    ensures UNREADABLE in OfScope(None) && UNREADABLE in OfResource(None) && UNREADABLE in AllRaw(None)
  {
    assert OfScope(None)[0] == UNREADABLE && OfResource(None)[0] == UNREADABLE && AllRaw(None)[0] == UNREADABLE;
  }

  /** An export that can be imported has no malformed part. */
  lemma {:induction false} ImportableIsWellFormed(export_: Export)
    requires Importable(AllRaw(export_))
    ensures WellFormed(export_)
  {
    OneUnreadable();
    assert UNREADABLE !in AllRaw(export_);
    var resources := export_.value;
    forall r | 0 <= r < |resources|
      ensures resources[r].Some? && forall c :: 0 <= c < |resources[r].value| ==> resources[r].value[c].Some?
    {
      FlattenLacks(MapSeq(OfResource, resources), r, UNREADABLE);
      ReadableResource(resources[r]);
    }
  }

  lemma {:induction false} ReadableResource(resource: Resource)
    requires UNREADABLE !in OfResource(resource)
    ensures resource.Some? && forall c :: 0 <= c < |resource.value| ==> resource.value[c].Some?
  {
    OneUnreadable();
    var scopes := resource.value;
    forall c | 0 <= c < |scopes| ensures scopes[c].Some? {
      FlattenLacks(MapSeq(OfScope, scopes), c, UNREADABLE);
    }
  }

  lemma {:induction false} GroupsTell(
    raws: seq<Raw>, spans: seq<Span>, groups: map<string, seq<Span>>, seen: set<SpanKey>)
    requires Holds(raws, spans, groups, seen)
    ensures groups == map[] <==> raws == []
    ensures Parsed(raws, spans) && DistinctKeys(spans) && Grouped(groups, spans)
  {
    if raws == [] {
      assert spans == [];
      assert forall id :: id !in groups;
    } else {
      assert spans[0].traceId in groups;
    }
  }
}
