/** The choice of a capsule's goal from imported evidence, as compiler.py makes it. */
module GoalSelection {
  import opened Prelude
  import opened Transcript

  datatype Selector =
    | Explicit(text: string)
    | LatestUserMessage(traceId: Option<string>)
    | LatestCorrection(traceId: Option<string>)

  datatype Goal = Goal(text: string, references: seq<Event>)

  datatype Error =
    | UnknownTrace | NoUserMessage | NoCorrection | AmbiguousMessage | AmbiguousFeedback | FeedbackMismatch
    | EmptyContent | GoalTooLong

  /** Correcting message, corrected message, feedback event. */
  datatype Candidate = Candidate(correcting: Event, corrected: Event, feedback: Event)

  const MAX_GOAL: nat := 10_000

  // ---- selecting events -------------------------------------------------------------------------------

  predicate Wants(traceId: Option<string>, id: string) {
    traceId.None? || traceId.value == id
  }

  function IsMessage(): Event -> bool {
    (e: Event) => e.Observed?
  }

  function HasMessageId(traceId: string, id: string): Event -> bool {
    (e: Event) => e.Observed? && e.traceId == traceId && e.messageId == id
  }

  function IsFeedbackAt(sequence: nat): Event -> bool {
    (e: Event) => e.Feedback? && e.sequence == sequence
  }

  function IsUserMessage(): Event -> bool {
    (e: Event) => e.Observed? && e.role == User
  }

  /** `_message_events`. */
  function MessageEvents(traces: seq<Trace>, traceId: Option<string>): seq<Event> {
    if traces == [] then []
    else
      (if Wants(traceId, traces[0].traceId) then Filter(IsMessage(), traces[0].events) else [])
      + MessageEvents(traces[1..], traceId)
  }

  function FeedbackEvents(traces: seq<Trace>, traceId: string, sequence: nat): seq<Event> {
    if traces == [] then []
    else
      (if traces[0].traceId == traceId then Filter(IsFeedbackAt(sequence), traces[0].events) else [])
      + FeedbackEvents(traces[1..], traceId, sequence)
  }

  /** `_message_by_id`. */
  function MessageById(messages: seq<Event>, traceId: string, id: string): Result<Event, Error> {
    var matches := Filter(HasMessageId(traceId, id), messages);
    if |matches| == 1 then Ok(matches[0]) else Err(AmbiguousMessage)
  }

  /** `_message_content`. */
  function Content(e: Event): Result<string, Error> {
    if !e.Observed? || e.content == "" then Err(EmptyContent)
    else if |e.content| > MAX_GOAL then Err(GoalTooLong)
    else Ok(e.content)
  }

  /** The sort key: timestamp, then trace, then sequence. */
  predicate Later(a: Event, b: Event) {
    || a.timestamp < b.timestamp
    || (a.timestamp == b.timestamp
      && (Less(a.traceId, b.traceId) || (a.traceId == b.traceId && a.sequence < b.sequence)))
  }

  function CandidateOf(bundle: Bundle, messages: seq<Event>, c: Correction): Result<Candidate, Error> {
    var correcting := MessageById(messages, c.traceId, c.messageId);
    if correcting.Err? then Err(correcting.error)
    else
      var corrected := MessageById(messages, c.traceId, c.correctionOf);
      if corrected.Err? then Err(corrected.error)
      else
        var feedbacks := FeedbackEvents(bundle.traces, c.traceId, c.eventSequence);
        if |feedbacks| != 1 then Err(AmbiguousFeedback)
        else if !feedbacks[0].Feedback? || feedbacks[0].messageId != c.messageId
            || feedbacks[0].correctionOf != c.correctionOf
        then Err(FeedbackMismatch)
        else Ok(Candidate(correcting.value, corrected.value, feedbacks[0]))
  }

  /** The candidates of the corrections in order, or the first error. */
  function CandidatesOf(bundle: Bundle, messages: seq<Event>, cs: seq<Correction>): (r: Result<seq<Candidate>, Error>)
    ensures r.Ok? ==> |r.value| == |cs|
  {
    if cs == [] then Ok([])
    else
      var n := |cs| - 1;
      var before := CandidatesOf(bundle, messages, cs[..n]);
      if before.Err? then before
      else
        var last := CandidateOf(bundle, messages, cs[n]);
        if last.Err? then Err(last.error) else Ok(before.value + [last.value])
  }

  /** `max(candidates, key=...)`: the first of the greatest. */
  function LatestCandidate(cs: seq<Candidate>): Candidate
    requires cs != []
  {
    var n := |cs| - 1;
    if n == 0 then cs[0]
    else
      var best := LatestCandidate(cs[..n]);
      if Later(best.correcting, cs[n].correcting) then cs[n] else best
  }

  function LatestEvent(es: seq<Event>): Event
    requires es != []
  {
    var n := |es| - 1;
    if n == 0 then es[0]
    else
      var best := LatestEvent(es[..n]);
      if Later(best, es[n]) then es[n] else best
  }

  function WantsCorrection(traceId: Option<string>): Correction -> bool {
    (c: Correction) => Wants(traceId, c.traceId)
  }

  // ---- the selection as the program makes it --------------------------------------------------------

  /** The loop over correction records in `_select_goal`. */
  method CollectCandidates(bundle: Bundle, messages: seq<Event>, cs: seq<Correction>)
    returns (outcome: Result<seq<Candidate>, Error>)
    ensures outcome == CandidatesOf(bundle, messages, cs)
  {
    var candidates: seq<Candidate> := [];
    for n := 0 to |cs|
      invariant CandidatesOf(bundle, messages, cs[..n]) == Ok(candidates)
    {
      assert cs[..n + 1][..n] == cs[..n];
      var next := CandidateOf(bundle, messages, cs[n]);
      if next.Err? {
        CandidateErrorStays(bundle, messages, cs, n + 1);
        return Err(next.error);
      }
      candidates := candidates + [next.value];
    }
    assert cs[..|cs|] == cs;
    outcome := Ok(candidates);
  }

  lemma {:induction false} CandidateErrorStays(bundle: Bundle, messages: seq<Event>, cs: seq<Correction>, n: nat)
    requires n <= |cs| && CandidatesOf(bundle, messages, cs[..n]).Err?
    ensures CandidatesOf(bundle, messages, cs) == CandidatesOf(bundle, messages, cs[..n])
    decreases |cs| - n
  {
    if n == |cs| {
      assert cs[..n] == cs;
    } else {
      assert cs[..n + 1][..n] == cs[..n];
      CandidateErrorStays(bundle, messages, cs, n + 1);
    }
  }

  method FindLatestCandidate(cs: seq<Candidate>) returns (best: Candidate)
    requires cs != []
    ensures best == LatestCandidate(cs)
  {
    best := cs[0];
    assert cs[..1] == [cs[0]];
    for n := 1 to |cs|
      invariant best == LatestCandidate(cs[..n])
    {
      assert cs[..n + 1][..n] == cs[..n];
      if Later(best.correcting, cs[n].correcting) {
        best := cs[n];
      }
    }
    assert cs[..|cs|] == cs;
  }

  predicate KnowsTrace(traces: seq<Trace>, id: string) {
    exists i :: 0 <= i < |traces| && traces[i].traceId == id
  }

  /** What `_select_goal` comes to. */
  function GoalOf(bundle: Bundle, selector: Selector): Result<Goal, Error> {
    if selector.Explicit? then Ok(Goal(selector.text, []))
    else if selector.traceId.Some? && !KnowsTrace(bundle.traces, selector.traceId.value) then Err(UnknownTrace)
    else
      var messages := MessageEvents(bundle.traces, selector.traceId);
      if selector.LatestUserMessage? then
        var mine := Filter(IsUserMessage(), messages);
        if mine == [] then Err(NoUserMessage) else WithContent(LatestEvent(mine), [LatestEvent(mine)])
      else ByCorrection(bundle, messages, Filter(WantsCorrection(selector.traceId), bundle.corrections))
  }

  function ByCorrection(bundle: Bundle, messages: seq<Event>, cs: seq<Correction>): Result<Goal, Error> {
    if cs == [] then Err(NoCorrection)
    else
      var candidates := CandidatesOf(bundle, messages, cs);
      if candidates.Err? then Err(candidates.error) else FromCandidate(LatestCandidate(candidates.value))
  }

  function FromCandidate(best: Candidate): Result<Goal, Error> {
    WithContent(best.correcting, [best.corrected, best.correcting, best.feedback])
  }

  function WithContent(e: Event, references: seq<Event>): Result<Goal, Error> {
    var content := Content(e);
    if content.Err? then Err(content.error) else Ok(Goal(content.value, references))
  }

  /** `_select_goal` under the latest-correction strategy. */
  method SelectCorrection(bundle: Bundle, traceId: Option<string>) returns (outcome: Result<Goal, Error>)
    ensures outcome == GoalOf(bundle, LatestCorrection(traceId))
  {
    if traceId.Some? && !KnowsTrace(bundle.traces, traceId.value) {
      return Err(UnknownTrace);
    }
    var messages := MessageEvents(bundle.traces, traceId);
    var cs := Filter(WantsCorrection(traceId), bundle.corrections);
    if cs == [] {
      return Err(NoCorrection);
    }
    var candidates := CollectCandidates(bundle, messages, cs);
    if candidates.Err? {
      return Err(candidates.error);
    }
    var best := FindLatestCandidate(candidates.value);
    outcome := FromCandidate(best);
  }

  // ---- the selection on an imported document ----------------------------------------------------------

  function WholeTrace(doc: Document): seq<Event>
    requires |doc.messages| >= 1
  {
    Events(doc, |doc.messages|)
  }

  function ObservedAt(doc: Document, i: nat): Event
    requires i < |doc.messages|
  {
    Observation(doc, i, Position(doc, i))
  }

  function FeedbackAt(doc: Document, i: nat): Event
    requires i < |doc.messages| && doc.messages[i].correctionOf.Some?
  {
    FeedbackEvent(doc, i, Position(doc, i) + 1)
  }

  lemma {:induction false} OneMessageById(doc: Document, i: nat, k: nat)
    requires ValidDocument(doc) && i < |doc.messages| && k < |WholeTrace(doc)|
    ensures HasMessageId(doc.id, doc.messages[i].id)(WholeTrace(doc)[k]) <==> k == Position(doc, i)
  {
    EventsAtPosition(doc, i);
    EventsExtend(doc, 0, |doc.messages|);
    if k > 0 {
      var j := EventOfMessage(doc, |doc.messages|, k);
      assert doc.messages[i].id == doc.messages[j].id ==> i == j;
    }
  }

  lemma {:induction false} ImportedMessages(doc: Document, traceId: Option<string>)
    requires ValidDocument(doc) && Wants(traceId, doc.id)
    ensures MessageEvents(Imported(doc).traces, traceId) == Filter(IsMessage(), WholeTrace(doc))
  {
    var traces := Imported(doc).traces;
    assert traces[1..] == [];
    assert Filter(IsMessage(), WholeTrace(doc)) + [] == Filter(IsMessage(), WholeTrace(doc));
  }

  /** Looking a message up by its id finds its one observation. */
  lemma {:induction false} ImportedMessageById(doc: Document, traceId: Option<string>, i: nat)
    requires ValidDocument(doc) && Wants(traceId, doc.id) && i < |doc.messages|
    ensures MessageById(MessageEvents(Imported(doc).traces, traceId), doc.id, doc.messages[i].id)
              == Ok(ObservedAt(doc, i))
  {
    var events, has := WholeTrace(doc), HasMessageId(doc.id, doc.messages[i].id);
    ImportedMessages(doc, traceId);
    FilterTwice(has, IsMessage(), has, events);
    EventsAtPosition(doc, i);
    forall k | 0 <= k < |events| ensures has(events[k]) <==> k == Position(doc, i) {
      OneMessageById(doc, i, k);
    }
    FilterOne(has, events, Position(doc, i));
  }

  lemma {:induction false} ImportedFeedback(doc: Document, i: nat)
    requires ValidDocument(doc) && i < |doc.messages| && doc.messages[i].correctionOf.Some?
    ensures FeedbackEvents(Imported(doc).traces, doc.id, Position(doc, i) + 1) == [FeedbackAt(doc, i)]
  {
    var events, at := WholeTrace(doc), Position(doc, i) + 1;
    EventsAtPosition(doc, i);
    EventsAreOrdered(doc, |doc.messages|);
    FilterOne(IsFeedbackAt(at), events, at);
    var traces := Imported(doc).traces;
    assert traces[1..] == [] && [FeedbackAt(doc, i)] + [] == [FeedbackAt(doc, i)];
  }

  /** The message a correction corrects. */
  ghost predicate Corrects(doc: Document, i: nat, j: nat) {
    && i < |doc.messages| && j < i && doc.messages[i].correctionOf == Some(doc.messages[j].id)
    && doc.messages[j].role == Assistant && doc.messages[i].role == User
  }

  lemma {:induction false} TargetExists(doc: Document, i: nat) returns (j: nat)
    requires ValidDocument(doc) && i < |doc.messages| && doc.messages[i].correctionOf.Some?
    ensures Corrects(doc, i, j)
  {
    assert CorrectionOk(doc.messages, i);
    j :| 0 <= j < i && doc.messages[j].id == doc.messages[i].correctionOf.value && doc.messages[j].role == Assistant;
  }

  /** Each candidate is the correcting message, the message it corrects, and its own feedback. */
  ghost predicate IsCandidate(doc: Document, i: nat, c: Candidate) {
    && i < |doc.messages| && doc.messages[i].correctionOf.Some?
    && c.correcting == ObservedAt(doc, i) && c.feedback == FeedbackAt(doc, i)
    && exists j :: Corrects(doc, i, j) && c.corrected == ObservedAt(doc, j)
  }

  /** When both messages and the one feedback event are found, they are the candidate. */
  lemma {:induction false} CandidateFound(
    bundle: Bundle, messages: seq<Event>, c: Correction, correcting: Event, corrected: Event, feedback: Event)
    requires MessageById(messages, c.traceId, c.messageId) == Ok(correcting)
    requires MessageById(messages, c.traceId, c.correctionOf) == Ok(corrected)
    requires FeedbackEvents(bundle.traces, c.traceId, c.eventSequence) == [feedback]
    requires feedback.Feedback? && feedback.messageId == c.messageId && feedback.correctionOf == c.correctionOf
    ensures CandidateOf(bundle, messages, c) == Ok(Candidate(correcting, corrected, feedback))
  {
  }

  lemma {:induction false} ImportedCandidateIs(doc: Document, traceId: Option<string>, i: nat, j: nat)
    requires ValidDocument(doc) && Wants(traceId, doc.id) && i < |doc.messages| && doc.messages[i].correctionOf.Some?
    requires Corrects(doc, i, j)
    ensures CandidateOf(Imported(doc), MessageEvents(Imported(doc).traces, traceId), CorrectionOf(doc, i))
            == Ok(Candidate(ObservedAt(doc, i), ObservedAt(doc, j), FeedbackAt(doc, i)))
  {
    ImportedMessageById(doc, traceId, i);
    ImportedMessageById(doc, traceId, j);
    ImportedFeedback(doc, i);
    CandidateFound(Imported(doc), MessageEvents(Imported(doc).traces, traceId), CorrectionOf(doc, i),
                   ObservedAt(doc, i), ObservedAt(doc, j), FeedbackAt(doc, i));
  }

  lemma {:induction false} ImportedCandidate(doc: Document, traceId: Option<string>, i: nat)
    requires ValidDocument(doc) && Wants(traceId, doc.id) && i < |doc.messages| && doc.messages[i].correctionOf.Some?
    ensures YieldsCandidate(doc, Imported(doc), MessageEvents(Imported(doc).traces, traceId), i)
  {
    var j := TargetExists(doc, i);
    ImportedCandidateIs(doc, traceId, i, j);
  }

  /** The last of the first n messages that corrects another. */
  function LastCorrecting(messages: seq<Message>, n: nat): Option<nat>
    requires n <= |messages|
  {
    if n == 0 then None
    else if messages[n - 1].correctionOf.Some? then Some(n - 1)
    else LastCorrecting(messages, n - 1)
  }

  lemma {:induction false} LastCorrectingIsLast(messages: seq<Message>, n: nat)
    requires n <= |messages|
    ensures match LastCorrecting(messages, n)
            case None => forall i :: 0 <= i < n ==> messages[i].correctionOf.None?
            case Some(last) => last < n && messages[last].correctionOf.Some?
                               && forall i :: last < i < n ==> messages[i].correctionOf.None?
  {
    if n > 0 {
      LastCorrectingIsLast(messages, n - 1);
    }
  }

  lemma {:induction false} LaterMessage(doc: Document, i: nat, j: nat)
    requires ValidDocument(doc) && i < j < |doc.messages|
    ensures Later(ObservedAt(doc, i), ObservedAt(doc, j))
  {
    EventsExtend(doc, i, j);
  }

  /** The candidates of the first n messages exist, and the latest is the last correcting message. */
  ghost predicate LatestIsLast(doc: Document, n: nat, r: Result<seq<Candidate>, Error>)
    requires n <= |doc.messages|
  {
    r.Ok? && LatestAmong(doc, LastCorrecting(doc.messages, n), r.value)
  }

  ghost predicate LatestAmong(doc: Document, last: Option<nat>, cs: seq<Candidate>) {
    if last.None? then cs == [] else cs != [] && IsCandidate(doc, last.value, LatestCandidate(cs))
  }

  lemma {:induction false} OneMoreCandidate(bundle: Bundle, messages: seq<Event>, cs: seq<Correction>, c: Correction)
    requires CandidatesOf(bundle, messages, cs).Ok? && CandidateOf(bundle, messages, c).Ok?
    ensures CandidatesOf(bundle, messages, cs + [c]) ==
              Ok(CandidatesOf(bundle, messages, cs).value + [CandidateOf(bundle, messages, c).value])
  {
    assert (cs + [c])[..|cs|] == cs;
  }

  lemma {:induction false} LatestMovesOn(doc: Document, n: nat, before: seq<Candidate>, c: Candidate)
    requires ValidDocument(doc) && n < |doc.messages| && LatestIsLast(doc, n, Ok(before)) && IsCandidate(doc, n, c)
    ensures LatestIsLast(doc, n + 1, Ok(before + [c]))
  {
    assert (before + [c])[..|before|] == before;
    LastCorrectingIsLast(doc.messages, n);
    var last := LastCorrecting(doc.messages, n);
    if last.Some? {
      LaterMessage(doc, last.value, n);
    }
  }

  /** Every correction of the document yields its candidate. */
  ghost predicate AllCandidates(doc: Document, bundle: Bundle, messages: seq<Event>) {
    forall i :: 0 <= i < |doc.messages| && doc.messages[i].correctionOf.Some? ==>
        YieldsCandidate(doc, bundle, messages, i)
  }

  ghost predicate YieldsCandidate(doc: Document, bundle: Bundle, messages: seq<Event>, i: nat)
    requires i < |doc.messages| && doc.messages[i].correctionOf.Some?
  {
    var c := CandidateOf(bundle, messages, CorrectionOf(doc, i));
    c.Ok? && IsCandidate(doc, i, c.value)
  }

  ghost predicate CandidatesReach(doc: Document, bundle: Bundle, messages: seq<Event>, n: nat)
    requires 1 <= |doc.messages| && n <= |doc.messages|
  {
    LatestIsLast(doc, n, CandidatesOf(bundle, messages, Corrections(doc, n)))
  }

  lemma {:induction false} CandidatesThrough(doc: Document, bundle: Bundle, messages: seq<Event>, n: nat)
    requires ValidDocument(doc) && n <= |doc.messages| && AllCandidates(doc, bundle, messages)
    ensures CandidatesReach(doc, bundle, messages, n)
  {
    if n == 0 {
      NoCandidates(doc, bundle, messages);
    } else {
      CandidatesThrough(doc, bundle, messages, n - 1);
      CandidatesStep(doc, bundle, messages, n - 1);
    }
  }

  lemma {:induction false} NoCandidates(doc: Document, bundle: Bundle, messages: seq<Event>)
    requires ValidDocument(doc)
    ensures CandidatesReach(doc, bundle, messages, 0)
  {
  }

  lemma {:induction false} CandidatesStep(doc: Document, bundle: Bundle, messages: seq<Event>, n: nat)
    requires ValidDocument(doc) && n < |doc.messages| && AllCandidates(doc, bundle, messages)
    requires CandidatesReach(doc, bundle, messages, n)
    ensures CandidatesReach(doc, bundle, messages, n + 1)
  {
    if doc.messages[n].correctionOf.Some? {
      CorrectingStep(doc, bundle, messages, n);
    } else {
      OtherStep(doc, bundle, messages, n);
    }
  }

  lemma {:induction false} OtherStep(doc: Document, bundle: Bundle, messages: seq<Event>, n: nat)
    requires 1 <= |doc.messages| && n < |doc.messages| && doc.messages[n].correctionOf.None?
    requires CandidatesReach(doc, bundle, messages, n)
    ensures CandidatesReach(doc, bundle, messages, n + 1)
  {
    assert Corrections(doc, n + 1) == Corrections(doc, n);
    assert LastCorrecting(doc.messages, n + 1) == LastCorrecting(doc.messages, n);
  }

  lemma {:induction false} CorrectingStep(doc: Document, bundle: Bundle, messages: seq<Event>, n: nat)
    requires ValidDocument(doc) && n < |doc.messages| && AllCandidates(doc, bundle, messages)
    requires doc.messages[n].correctionOf.Some? && CandidatesReach(doc, bundle, messages, n)
    ensures CandidatesReach(doc, bundle, messages, n + 1)
  {
    var before, c := Corrections(doc, n), CorrectionOf(doc, n);
    assert YieldsCandidate(doc, bundle, messages, n) && Corrections(doc, n + 1) == before + [c];
    OneMoreCandidate(bundle, messages, before, c);
    LatestMovesOn(doc, n, CandidatesOf(bundle, messages, before).value, CandidateOf(bundle, messages, c).value);
  }

  lemma {:induction false} ImportedCandidates(doc: Document, traceId: Option<string>)
    requires ValidDocument(doc) && Wants(traceId, doc.id)
    ensures AllCandidates(doc, Imported(doc), MessageEvents(Imported(doc).traces, traceId))
  {
    forall i | 0 <= i < |doc.messages| && doc.messages[i].correctionOf.Some?
      ensures YieldsCandidate(doc, Imported(doc), MessageEvents(Imported(doc).traces, traceId), i)
    {
      ImportedCandidate(doc, traceId, i);
    }
  }

  lemma {:induction false} CorrectionsAreWanted(doc: Document, n: nat)
    requires 1 <= |doc.messages| && n <= |doc.messages|
    ensures forall i :: 0 <= i < |Corrections(doc, n)| ==> Corrections(doc, n)[i].traceId == doc.id
  {
    if n > 0 {
      CorrectionsAreWanted(doc, n - 1);
    }
  }

  ghost predicate GoalFrom(doc: Document, i: nat, goal: Goal) {
    && i < |doc.messages| && doc.messages[i].correctionOf.Some? && goal.text == doc.messages[i].content
    && exists j ::
         Corrects(doc, i, j) && goal.references == [ObservedAt(doc, j), ObservedAt(doc, i), FeedbackAt(doc, i)]
  }

  /**
   * On any imported document goal selection by correction succeeds if and only if some message is a
   * correction and the last one fits the goal limit; it then picks that message, with the message it
   * corrects and its own feedback event as evidence.
   */
  lemma {:induction false} LatestCorrectionIsSelected(doc: Document, traceId: Option<string>)
    requires ValidDocument(doc) && Wants(traceId, doc.id)
    ensures var goal := GoalOf(Imported(doc), LatestCorrection(traceId));
            match LastCorrecting(doc.messages, |doc.messages|)
            case None => goal == Err(NoCorrection)
            case Some(last) =>
              && last < |doc.messages|
              && (|doc.messages[last].content| <= MAX_GOAL ==> goal.Ok? && GoalFrom(doc, last, goal.value))
              && (|doc.messages[last].content| > MAX_GOAL ==> goal == Err(GoalTooLong))
  {
    ImportedIsKnown(doc);
    CorrectionsAreWanted(doc, |doc.messages|);
    FilterAll(WantsCorrection(traceId), Corrections(doc, |doc.messages|));
    ImportedCandidates(doc, traceId);
    CorrectionDecides(doc, Imported(doc), MessageEvents(Imported(doc).traces, traceId));
  }

  lemma {:induction false} CorrectionDecides(doc: Document, bundle: Bundle, messages: seq<Event>)
    requires ValidDocument(doc) && AllCandidates(doc, bundle, messages)
    ensures var goal := ByCorrection(bundle, messages, Corrections(doc, |doc.messages|));
            match LastCorrecting(doc.messages, |doc.messages|)
            case None => goal == Err(NoCorrection)
            case Some(last) =>
              && last < |doc.messages|
              && (|doc.messages[last].content| <= MAX_GOAL ==> goal.Ok? && GoalFrom(doc, last, goal.value))
              && (|doc.messages[last].content| > MAX_GOAL ==> goal == Err(GoalTooLong))
  {
    var n := |doc.messages|;
    CandidatesThrough(doc, bundle, messages, n);
    LastCorrectingIsLast(doc.messages, n);
    var last := LastCorrecting(doc.messages, n);
    if last.Some? {
      ContentDecides(doc, last.value, LatestCandidate(CandidatesOf(bundle, messages, Corrections(doc, n)).value));
    }
  }

  lemma {:induction false} ImportedIsKnown(doc: Document)
    requires ValidDocument(doc)
    ensures KnowsTrace(Imported(doc).traces, doc.id)
  {
    assert Imported(doc).traces[0].traceId == doc.id;
  }

  lemma {:induction false} ContentDecides(doc: Document, i: nat, c: Candidate)
    requires ValidDocument(doc) && IsCandidate(doc, i, c)
    ensures var goal := FromCandidate(c);
            if |doc.messages[i].content| <= MAX_GOAL then goal.Ok? && GoalFrom(doc, i, goal.value)
            else goal == Err(GoalTooLong)
  {
  }

  // ---- the latest user message ------------------------------------------------------------------------

  function LastUser(messages: seq<Message>, n: nat): Option<nat>
    requires n <= |messages|
    ensures LastUser(messages, n).Some? ==> LastUser(messages, n).value < n
  {
    if n == 0 then None else if messages[n - 1].role == User then Some(n - 1) else LastUser(messages, n - 1)
  }

  ghost predicate LatestIsUser(doc: Document, n: nat, mine: seq<Event>)
    requires n <= |doc.messages|
  {
    match LastUser(doc.messages, n)
    case None => mine == []
    case Some(last) => mine != [] && LatestEvent(mine) == ObservedAt(doc, last)
  }

  lemma {:induction false} UserEventsOf(doc: Document, n: nat)
    requires n < |doc.messages|
    ensures Filter(IsUserMessage(), EventsOf(doc, n, Position(doc, n))) ==
              if doc.messages[n].role == User then [ObservedAt(doc, n)] else []
  {
    var p, events := IsUserMessage(), EventsOf(doc, n, Position(doc, n));
    if doc.messages[n].role == User {
      FilterOne(p, events, 0);
    } else {
      FilterNone(p, events);
    }
  }

  lemma {:induction false} LatestOfAppend(es: seq<Event>, e: Event)
    ensures LatestEvent(es + [e]) == if es == [] || Later(LatestEvent(es), e) then e else LatestEvent(es)
  {
    assert (es + [e])[..|es|] == es;
  }

  lemma {:induction false} LatestUserMovesOn(doc: Document, n: nat, before: seq<Event>)
    requires ValidDocument(doc) && n < |doc.messages| && LatestIsUser(doc, n, before) && doc.messages[n].role == User
    ensures LatestIsUser(doc, n + 1, before + [ObservedAt(doc, n)])
  {
    LatestOfAppend(before, ObservedAt(doc, n));
    var last := LastUser(doc.messages, n);
    if last.Some? {
      LaterMessage(doc, last.value, n);
    }
  }

  lemma {:induction false} UserEvents(doc: Document, n: nat)
    requires ValidDocument(doc) && n <= |doc.messages|
    ensures LatestIsUser(doc, n, Filter(IsUserMessage(), Events(doc, n)))
  {
    if n == 0 {
      FilterNone(IsUserMessage(), Events(doc, 0));
    } else {
      UserEvents(doc, n - 1);
      UserEventsStep(doc, n - 1, Filter(IsUserMessage(), Events(doc, n - 1)));
    }
  }

  lemma {:induction false} UserEventsStep(doc: Document, n: nat, before: seq<Event>)
    requires ValidDocument(doc) && n < |doc.messages|
    requires before == Filter(IsUserMessage(), Events(doc, n)) && LatestIsUser(doc, n, before)
    ensures LatestIsUser(doc, n + 1, Filter(IsUserMessage(), Events(doc, n + 1)))
  {
    FilterAppend(IsUserMessage(), Events(doc, n), EventsOf(doc, n, Position(doc, n)));
    UserEventsOf(doc, n);
    if doc.messages[n].role == User {
      LatestUserMovesOn(doc, n, before);
    } else {
      assert before + [] == before;
    }
  }

  /** Selection by user message takes the last one in document order, if it fits and there is one. */
  lemma {:induction false} LatestUserMessageIsSelected(doc: Document, traceId: Option<string>)
    requires ValidDocument(doc) && Wants(traceId, doc.id)
    ensures var goal := GoalOf(Imported(doc), LatestUserMessage(traceId));
            match LastUser(doc.messages, |doc.messages|)
            case None => goal == Err(NoUserMessage)
            case Some(last) =>
              goal == if |doc.messages[last].content| <= MAX_GOAL
                      then Ok(Goal(doc.messages[last].content, [ObservedAt(doc, last)])) else Err(GoalTooLong)
  {
    ImportedIsKnown(doc);
    ImportedMessages(doc, traceId);
    FilterTwice(IsUserMessage(), IsMessage(), IsUserMessage(), WholeTrace(doc));
    UserEvents(doc, |doc.messages|);
  }
}
