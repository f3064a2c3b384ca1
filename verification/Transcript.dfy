/** The transcript importer of ingest.py: its validator, and the trace it makes of a document. */
module Transcript {
  import opened Prelude

  datatype Role = System | User | Assistant | Tool

  datatype Message = Message(id: string, role: Role, content: string, timestamp: int, correctionOf: Option<string>)

  datatype Document = Document(id: string, messages: seq<Message>)

  datatype Event =
    | Started(traceId: string, sequence: nat, timestamp: int, messages: nat)
    | Observed(traceId: string, sequence: nat, timestamp: int, messageId: string, role: Role, content: string)
    | Feedback(traceId: string, sequence: nat, timestamp: int, messageId: string, correctionOf: string)

  datatype Trace = Trace(traceId: string, events: seq<Event>)

  datatype Correction = Correction(traceId: string, messageId: string, correctionOf: string, eventSequence: nat)

  datatype Bundle = Bundle(traces: seq<Trace>, corrections: seq<Correction>)

  datatype Invalid =
    | DuplicateId | TimeGoesBack | UnknownTarget | TargetNotAssistant | CorrectorNotUser

  // ---- the validator --------------------------------------------------------------------------------

  ghost predicate DistinctIds(messages: seq<Message>) {
    forall i, j :: 0 <= i < j < |messages| ==> messages[i].id != messages[j].id
  }

  ghost predicate TimeOrdered(messages: seq<Message>) {
    forall i, j :: 0 <= i < j < |messages| ==> messages[i].timestamp <= messages[j].timestamp
  }

  /** A correction is a user message about an earlier assistant message. */
  ghost predicate CorrectionOk(messages: seq<Message>, i: nat)
    requires i < |messages|
  {
    messages[i].correctionOf.Some? ==>
      && messages[i].role == User
      && exists j :: 0 <= j < i && messages[j].id == messages[i].correctionOf.value && messages[j].role == Assistant
  }

  ghost predicate ValidMessages(messages: seq<Message>) {
    && DistinctIds(messages) && TimeOrdered(messages)
    && forall i :: 0 <= i < |messages| ==> CorrectionOk(messages, i)
  }

  /** The dictionary of the messages seen so far. */
  ghost predicate Seen(messages: seq<Message>, n: nat, seen: map<string, Message>)
    requires n <= |messages|
  {
    && (forall i :: 0 <= i < n ==> messages[i].id in seen && seen[messages[i].id] == messages[i])
    && forall id :: id in seen ==> exists i :: 0 <= i < n && messages[i].id == id
  }

  lemma {:induction false} SeenGrows(messages: seq<Message>, n: nat, seen: map<string, Message>)
    requires n < |messages| && Seen(messages, n, seen) && messages[n].id !in seen
    ensures Seen(messages, n + 1, seen[messages[n].id := messages[n]])
  {
    var grown := seen[messages[n].id := messages[n]];
    forall id | id in grown ensures exists i :: 0 <= i < n + 1 && messages[i].id == id {
      if id in seen {
        var i :| 0 <= i < n && messages[i].id == id;
        assert messages[i].id == id;
      } else {
        assert messages[n].id == id;
      }
    }
  }

  /** The first n messages are in order among themselves. */
  ghost predicate ValidThrough(messages: seq<Message>, n: nat)
    requires n <= |messages|
  {
    && (forall i, j :: 0 <= i < j < n ==> messages[i].id != messages[j].id)
    && (forall i, j :: 0 <= i < j < n ==> messages[i].timestamp <= messages[j].timestamp)
    && forall i :: 0 <= i < n ==> CorrectionOk(messages, i)
  }

  lemma {:induction false} CorrectionFound(messages: seq<Message>, n: nat, seen: map<string, Message>)
    requires n < |messages| && Seen(messages, n, seen) && ValidThrough(messages, n) && messages[n].correctionOf.Some?
    ensures var target := messages[n].correctionOf.value;
            CorrectionOk(messages, n) <==> messages[n].role == User && target in seen && seen[target].role == Assistant
  {
    var target := messages[n].correctionOf.value;
    if target in seen {
      var i :| 0 <= i < n && messages[i].id == target;
      assert seen[target] == messages[i];
    }
  }

  /** One more message keeps the prefix valid, or spoils every continuation. */
  lemma {:induction false} ValidThroughStep(messages: seq<Message>, n: nat)
    requires n < |messages| && ValidThrough(messages, n)
    ensures ValidThrough(messages, n + 1) <==>
              && (forall i :: 0 <= i < n ==> messages[i].id != messages[n].id)
              && (n > 0 ==> messages[n - 1].timestamp <= messages[n].timestamp)
              && CorrectionOk(messages, n)
  {
  }

  /** The checks on one message. */
  method CheckMessage(messages: seq<Message>, n: nat, seen: map<string, Message>, previous: Option<int>)
    returns (error: Option<Invalid>)
    requires n < |messages| && Seen(messages, n, seen) && ValidThrough(messages, n)
    requires if n == 0 then previous == None else previous == Some(messages[n - 1].timestamp)
    ensures error.None? <==> ValidThrough(messages, n + 1)
    ensures error.None? ==> messages[n].id !in seen
  {
    var message := messages[n];
    ValidThroughStep(messages, n);
    if message.id in seen {
      return Some(DuplicateId);
    }
    if previous.Some? && message.timestamp < previous.value {
      return Some(TimeGoesBack);
    }
    if message.correctionOf.Some? {
      CorrectionFound(messages, n, seen);
      var target := message.correctionOf.value;
      if target !in seen {
        return Some(UnknownTarget);
      }
      if seen[target].role != Assistant {
        return Some(TargetNotAssistant);
      }
      if message.role != User {
        return Some(CorrectorNotUser);
      }
    }
    error := None;
  }

  lemma {:induction false} WholeIsThrough(messages: seq<Message>, n: nat)
    requires n <= |messages|
    ensures ValidThrough(messages, |messages|) <==> ValidMessages(messages)
    ensures !ValidThrough(messages, n) ==> !ValidMessages(messages)
  {
  }

  /** `messages_must_be_ordered_and_corrections_valid`. */
  method ValidateMessages(messages: seq<Message>) returns (error: Option<Invalid>)
    ensures error.None? <==> ValidMessages(messages)
  {
    var seen: map<string, Message> := map[];
    var previous: Option<int> := None;
    for n := 0 to |messages|
      invariant Seen(messages, n, seen) && ValidThrough(messages, n)
      invariant if n == 0 then previous == None else previous == Some(messages[n - 1].timestamp)
    {
      error := CheckMessage(messages, n, seen, previous);
      WholeIsThrough(messages, n + 1);
      if error.Some? {
        return;
      }
      SeenGrows(messages, n, seen);
      seen := seen[messages[n].id := messages[n]];
      previous := Some(messages[n].timestamp);
    }
    WholeIsThrough(messages, |messages|);
    error := None;
  }

  ghost predicate ValidDocument(doc: Document) {
    && |doc.messages| >= 1 && ValidMessages(doc.messages)
    && forall i :: 0 <= i < |doc.messages| ==> doc.messages[i].content != ""
  }

  // ---- the imported trace -----------------------------------------------------------------------------

  /** The events of the first n messages. */
  function Events(doc: Document, n: nat): (events: seq<Event>)
    requires n <= |doc.messages| && |doc.messages| >= 1
    ensures |events| >= 1
  {
    if n == 0 then [Started(doc.id, 0, doc.messages[0].timestamp, |doc.messages|)]
    else Events(doc, n - 1) + EventsOf(doc, n - 1, |Events(doc, n - 1)|)
  }

  /** Message i is observed at this sequence number. */
  function Position(doc: Document, i: nat): nat
    requires i <= |doc.messages| && |doc.messages| >= 1
  {
    |Events(doc, i)|
  }

  /** Message i observed with this sequence number. */
  function Observation(doc: Document, i: nat, at: nat): Event
    requires i < |doc.messages|
  {
    var m := doc.messages[i];
    Observed(doc.id, at, m.timestamp, m.id, m.role, m.content)
  }

  function FeedbackEvent(doc: Document, i: nat, at: nat): Event
    requires i < |doc.messages| && doc.messages[i].correctionOf.Some?
  {
    var m := doc.messages[i];
    Feedback(doc.id, at, m.timestamp, m.id, m.correctionOf.value)
  }

  function EventsOf(doc: Document, i: nat, at: nat): seq<Event>
    requires i < |doc.messages|
  {
    [Observation(doc, i, at)] + if doc.messages[i].correctionOf.Some? then [FeedbackEvent(doc, i, at + 1)] else []
  }

  /** The correction records of the first n messages, each pointing at its own feedback event. */
  function Corrections(doc: Document, n: nat): seq<Correction>
    requires n <= |doc.messages| && |doc.messages| >= 1
  {
    if n == 0 then []
    else Corrections(doc, n - 1) + if doc.messages[n - 1].correctionOf.Some? then [CorrectionOf(doc, n - 1)] else []
  }

  function CorrectionOf(doc: Document, i: nat): Correction
    requires i < |doc.messages| && doc.messages[i].correctionOf.Some?
  {
    var m := doc.messages[i];
    Correction(doc.id, m.id, m.correctionOf.value, Position(doc, i) + 1)
  }

  function Imported(doc: Document): Bundle
    requires |doc.messages| >= 1
  {
    Bundle([Trace(doc.id, Events(doc, |doc.messages|))], Corrections(doc, |doc.messages|))
  }

  /** `import_transcript_document` with redaction off. */
  method ImportDocument(doc: Document) returns (bundle: Bundle)
    requires ValidDocument(doc)
    ensures bundle == Imported(doc)
  {
    var events := [Started(doc.id, 0, doc.messages[0].timestamp, |doc.messages|)];
    var corrections: seq<Correction> := [];
    for n := 0 to |doc.messages|
      invariant events == Events(doc, n) && corrections == Corrections(doc, n)
    {
      var m := doc.messages[n];
      ghost var before := events;
      events := events + [Observed(doc.id, |events|, m.timestamp, m.id, m.role, m.content)];
      if m.correctionOf.Some? {
        var at := |events|;
        events := events + [Feedback(doc.id, at, m.timestamp, m.id, m.correctionOf.value)];
        corrections := corrections + [Correction(doc.id, m.id, m.correctionOf.value, at)];
      }
      assert events == before + EventsOf(doc, n, |before|);
      assert Corrections(doc, n) + [] == Corrections(doc, n);
    }
    bundle := Bundle([Trace(doc.id, events)], corrections);
  }

  // ---- the trace is valid -------------------------------------------------------------------------------

  /** `events_must_form_one_ordered_trace`; all events share one context here. */
  ghost predicate ValidTrace(trace: Trace) {
    && |trace.events| >= 2
    && (forall k :: 0 <= k < |trace.events| ==>
      trace.events[k].sequence == k && trace.events[k].traceId == trace.traceId)
    && forall k :: 0 < k < |trace.events| ==> trace.events[k - 1].timestamp <= trace.events[k].timestamp
  }

  /** The same for the events of the first n messages, up to a latest time. */
  ghost predicate OrderedEvents(doc: Document, events: seq<Event>, latest: int) {
    && |events| >= 1 && events[|events| - 1].timestamp == latest
    && (forall k :: 0 <= k < |events| ==> events[k].sequence == k && events[k].traceId == doc.id)
    && forall k :: 0 < k < |events| ==> events[k - 1].timestamp <= events[k].timestamp
  }

  lemma {:induction false} EventsAreOrdered(doc: Document, n: nat)
    requires 1 <= |doc.messages| && n <= |doc.messages| && TimeOrdered(doc.messages)
    ensures OrderedEvents(doc, Events(doc, n), doc.messages[if n == 0 then 0 else n - 1].timestamp)
  {
    if n > 0 {
      EventsAreOrdered(doc, n - 1);
    }
  }

  /** Importing a valid document gives one valid trace. */
  lemma {:induction false} ImportedTraceIsValid(doc: Document)
    requires ValidDocument(doc)
    ensures |Imported(doc).traces| == 1 && ValidTrace(Imported(doc).traces[0])
  {
    EventsAreOrdered(doc, |doc.messages|);
    EventsExtend(doc, 1, |doc.messages|);
  }

  // ---- where each message ends up -------------------------------------------------------------------------

  lemma {:induction false} EventsExtend(doc: Document, i: nat, n: nat)
    requires 1 <= |doc.messages| && i <= n <= |doc.messages|
    ensures Events(doc, i) <= Events(doc, n)
    ensures i < n ==> Position(doc, i) < Position(doc, n)
    decreases n - i
  {
    if i < n {
      EventsExtend(doc, i, n - 1);
    }
  }

  /** Message i is observed at its position, and its feedback follows. */
  lemma {:induction false} EventsAtPosition(doc: Document, i: nat)
    requires i < |doc.messages|
    ensures var events, p := Events(doc, |doc.messages|), Position(doc, i);
            && p < |events| && events[p] == Observation(doc, i, p)
            && (doc.messages[i].correctionOf.Some? ==>
              p + 1 < |events| && events[p + 1] == FeedbackEvent(doc, i, p + 1))
  {
    EventsExtend(doc, i + 1, |doc.messages|);
    assert Events(doc, i + 1) == Events(doc, i) + EventsOf(doc, i, Position(doc, i));
  }

  /** Every event after the first is the observation or the feedback of one message, at its place. */
  lemma {:induction false} EventOfMessage(doc: Document, n: nat, k: nat) returns (i: nat)
    requires 1 <= |doc.messages| && n <= |doc.messages| && 0 < k < |Events(doc, n)|
    ensures i < n
    ensures (k == Position(doc, i) && Events(doc, n)[k] == Observation(doc, i, k)) ||
            (doc.messages[i].correctionOf.Some? && k == Position(doc, i) + 1
                && Events(doc, n)[k] == FeedbackEvent(doc, i, k))
  {
    if k < |Events(doc, n - 1)| {
      i := EventOfMessage(doc, n - 1, k);
    } else {
      i := n - 1;
    }
  }
}
