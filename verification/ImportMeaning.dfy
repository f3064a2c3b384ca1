/** What an imported transcript is, event by event, and which message of any bundle becomes the goal. */
module TranscriptMeaning {
  import opened Prelude
  import opened Transcript

  /** How many of the first n messages are corrections. */
  function CorrectionsBefore(messages: seq<Message>, n: nat): nat
    requires n <= |messages|
  {
    if n == 0 then 0
    else CorrectionsBefore(messages, n - 1) + if messages[n - 1].correctionOf.Some? then 1 else 0
  }

  /** What a message leaves in the trace and among the correction records. */
  ghost predicate Leaves(doc: Document, i: nat, bundle: Bundle)
    requires i < |doc.messages| && |bundle.traces| == 1
  {
    var m, before := doc.messages[i], CorrectionsBefore(doc.messages, i);
    var at, events := 1 + i + before, bundle.traces[0].events;
    && at < |events| && events[at] == Observed(doc.id, at, m.timestamp, m.id, m.role, m.content)
    && (m.correctionOf.Some? ==>
          && at + 1 < |events| && before < |bundle.corrections|
          && events[at + 1] == Feedback(doc.id, at + 1, m.timestamp, m.id, m.correctionOf.value)
          && bundle.corrections[before] == Correction(doc.id, m.id, m.correctionOf.value, at + 1))
  }

  lemma {:induction false} PositionIs(doc: Document, n: nat)
    requires n <= |doc.messages| && |doc.messages| >= 1
    ensures Position(doc, n) == 1 + n + CorrectionsBefore(doc.messages, n)
    ensures |Corrections(doc, n)| == CorrectionsBefore(doc.messages, n)
  {
    if n > 0 {
      PositionIs(doc, n - 1);
    }
  }

  lemma {:induction false} CorrectionsExtend(doc: Document, i: nat, n: nat)
    requires |doc.messages| >= 1 && i <= n <= |doc.messages|
    ensures Corrections(doc, i) <= Corrections(doc, n)
    decreases n - i
  {
    if i < n {
      CorrectionsExtend(doc, i, n - 1);
    }
  }

  lemma {:induction false} MessageLeaves(doc: Document, i: nat)
    requires i < |doc.messages|
    ensures Leaves(doc, i, Imported(doc))
  {
    PositionIs(doc, i);
    EventsAtPosition(doc, i);
    CorrectionsExtend(doc, i + 1, |doc.messages|);
  }

  /** The imported bundle: one trace with a start, the events of each message in turn, and nothing else. */
  lemma {:induction false} ImportedIs(doc: Document)
    requires |doc.messages| >= 1
    ensures var bundle, n := Imported(doc), |doc.messages|;
            && |bundle.traces| == 1 && bundle.traces[0].traceId == doc.id
            && bundle.traces[0].events[0] == Started(doc.id, 0, doc.messages[0].timestamp, n)
            && |bundle.traces[0].events| == 1 + n + CorrectionsBefore(doc.messages, n)
            && |bundle.corrections| == CorrectionsBefore(doc.messages, n)
            && forall i :: 0 <= i < n ==> Leaves(doc, i, bundle)
  {
    PositionIs(doc, |doc.messages|);
    EventsExtend(doc, 0, |doc.messages|);
    forall i | 0 <= i < |doc.messages| ensures Leaves(doc, i, Imported(doc)) {
      MessageLeaves(doc, i);
    }
  }
}

module GoalMeaning {
  import opened Prelude
  import opened Transcript
  import opened GoalSelection

  /** At least as late: by time, then by trace id, then by place in the trace. */
  predicate NoEarlier(a: Event, b: Event) {
    || a.timestamp > b.timestamp
    || (a.timestamp == b.timestamp &&
          (Less(b.traceId, a.traceId) || (a.traceId == b.traceId && a.sequence >= b.sequence)))
  }

  lemma {:induction false} NotLaterIsNoEarlier(a: Event, b: Event)
    ensures !Later(a, b) ==> NoEarlier(a, b)
    ensures Later(a, b) ==> NoEarlier(b, a)
  {
    LessTotal(a.traceId, b.traceId);
  }

  lemma {:induction false} NoEarlierIsTransitive(a: Event, b: Event, c: Event)
    requires NoEarlier(a, b) && NoEarlier(b, c)
    ensures NoEarlier(a, c)
  {
    if Less(b.traceId, a.traceId) && Less(c.traceId, b.traceId) {
      LessTransitive(c.traceId, b.traceId, a.traceId);
    }
  }

  ghost predicate NoneLater(best: Event, es: seq<Event>) {
    forall e :: e in es ==> NoEarlier(best, e)
  }

  lemma {:induction false} NoneLaterGrows(best: Event, es: seq<Event>, last: Event)
    requires NoneLater(best, es)
    ensures !Later(best, last) ==> NoneLater(best, es + [last])
    ensures Later(best, last) ==> NoneLater(last, es + [last])
  {
    NotLaterIsNoEarlier(best, last);
    if Later(best, last) {
      forall e | e in es ensures NoEarlier(last, e) {
        NoEarlierIsTransitive(last, best, e);
      }
    }
  }

  lemma {:induction false} LatestEventIsNoEarlier(es: seq<Event>)
    requires es != []
    ensures LatestEvent(es) in es && NoneLater(LatestEvent(es), es)
  {
    var n := |es| - 1;
    if n > 0 {
      LatestEventIsNoEarlier(es[..n]);
      NoneLaterGrows(LatestEvent(es[..n]), es[..n], es[n]);
      assert es == es[..n] + [es[n]];
    }
  }

  function Correcting(cs: seq<Candidate>): seq<Event> {
    MapSeq((c: Candidate) => c.correcting, cs)
  }

  lemma {:induction false} LatestIsNoEarlier(cs: seq<Candidate>)
    requires cs != []
    ensures LatestCandidate(cs) in cs && NoneLater(LatestCandidate(cs).correcting, Correcting(cs))
  {
    var n := |cs| - 1;
    if n > 0 {
      LatestIsNoEarlier(cs[..n]);
      NoneLaterGrows(LatestCandidate(cs[..n]).correcting, Correcting(cs[..n]), cs[n].correcting);
      assert Correcting(cs) == Correcting(cs[..n]) + [cs[n].correcting];
    }
  }

  // ---- what the goal is ---------------------------------------------------------------------------------

  /** A message of a selected trace. */
  ghost predicate IsMessageOf(bundle: Bundle, traceId: Option<string>, e: Event) {
    e.Observed? && exists t :: t in bundle.traces && e in t.events && (traceId == None || traceId == Some(t.traceId))
  }

  lemma {:induction false} FilterMember<T>(p: T -> bool, xs: seq<T>, x: T)
    ensures x in Filter(p, xs) <==> x in xs && p(x)
  {
    if xs != [] {
      FilterMember(p, xs[1..], x);
      assert xs == [xs[0]] + xs[1..];
    }
  }

  lemma {:induction false} MessageEventsAre(bundle: Bundle, traces: seq<Trace>, traceId: Option<string>, e: Event)
    requires bundle.traces == traces
    ensures e in MessageEvents(traces, traceId) <==> IsMessageOf(bundle, traceId, e)
    decreases traces
  {
    if traces != [] {
      var rest := Bundle(traces[1..], bundle.corrections);
      MessageEventsAre(rest, traces[1..], traceId, e);
      FilterMember(IsMessage(), traces[0].events, e);
      assert traces == [traces[0]] + traces[1..];
      assert forall t :: t in traces <==> t == traces[0] || t in traces[1..];
    }
  }

  /** The messages and the feedback a correction record is about. */
  ghost predicate IsAbout(bundle: Bundle, traceId: Option<string>, c: Correction, found: Candidate) {
    && IsMessageOf(bundle, traceId, found.correcting) && IsMessageOf(bundle, traceId, found.corrected)
    && found.correcting.traceId == c.traceId && found.correcting.messageId == c.messageId
    && found.corrected.traceId == c.traceId && found.corrected.messageId == c.correctionOf
    && found.feedback.Feedback? && found.feedback.sequence == c.eventSequence
    && found.feedback.messageId == c.messageId && found.feedback.correctionOf == c.correctionOf
    && exists t :: t in bundle.traces && t.traceId == c.traceId && found.feedback in t.events
  }

  lemma {:induction false} FeedbackMember(traces: seq<Trace>, id: string, sequence: nat, e: Event)
    ensures e in FeedbackEvents(traces, id, sequence) <==>
              e.Feedback? && e.sequence == sequence && exists t :: t in traces && t.traceId == id && e in t.events
  {
    if traces != [] {
      FeedbackMember(traces[1..], id, sequence, e);
      FilterMember(IsFeedbackAt(sequence), traces[0].events, e);
      assert traces == [traces[0]] + traces[1..];
      assert forall t :: t in traces <==> t == traces[0] || t in traces[1..];
    }
  }

  lemma {:induction false} CandidateIsAbout(bundle: Bundle, traceId: Option<string>, c: Correction)
    requires CandidateOf(bundle, MessageEvents(bundle.traces, traceId), c).Ok?
    ensures IsAbout(bundle, traceId, c, CandidateOf(bundle, MessageEvents(bundle.traces, traceId), c).value)
  {
    var messages := MessageEvents(bundle.traces, traceId);
    var found := CandidateOf(bundle, messages, c).value;
    FilterMember(HasMessageId(c.traceId, c.messageId), messages, found.correcting);
    FilterMember(HasMessageId(c.traceId, c.correctionOf), messages, found.corrected);
    MessageEventsAre(bundle, bundle.traces, traceId, found.correcting);
    MessageEventsAre(bundle, bundle.traces, traceId, found.corrected);
    assert found.feedback in FeedbackEvents(bundle.traces, c.traceId, c.eventSequence);
    FeedbackMember(bundle.traces, c.traceId, c.eventSequence, found.feedback);
  }

  lemma {:induction false} CandidatesStep(
    bundle: Bundle, messages: seq<Event>, cs: seq<Correction>, candidates: seq<Candidate>)
    returns (before: seq<Correction>, found: seq<Candidate>, last: Candidate)
    requires cs != [] && CandidatesOf(bundle, messages, cs) == Ok(candidates)
    ensures cs == before + [cs[|cs| - 1]] && candidates == found + [last] && |found| == |before|
    ensures CandidatesOf(bundle, messages, before) == Ok(found)
    ensures CandidateOf(bundle, messages, cs[|cs| - 1]) == Ok(last)
  {
    var n := |cs| - 1;
    before := cs[..n];
    found := CandidatesOf(bundle, messages, before).value;
    last := CandidateOf(bundle, messages, cs[n]).value;
  }

  /** One candidate a correction record, in order. */
  lemma {:induction false} CandidateAt(
    bundle: Bundle, messages: seq<Event>, cs: seq<Correction>, candidates: seq<Candidate>, k: nat)
    requires CandidatesOf(bundle, messages, cs) == Ok(candidates) && k < |cs|
    ensures k < |candidates| && CandidateOf(bundle, messages, cs[k]) == Ok(candidates[k])
    decreases |cs|
  {
    var before, found, last := CandidatesStep(bundle, messages, cs, candidates);
    if k < |before| {
      CandidateAt(bundle, messages, before, found, k);
    }
  }

  lemma {:induction false} CandidatesAre(
    bundle: Bundle, traceId: Option<string>, messages: seq<Event>, cs: seq<Correction>, candidates: seq<Candidate>,
    k: nat)
    requires messages == MessageEvents(bundle.traces, traceId)
    requires CandidatesOf(bundle, messages, cs) == Ok(candidates) && k < |cs|
    ensures k < |candidates| && IsAbout(bundle, traceId, cs[k], candidates[k])
  {
    CandidateAt(bundle, messages, cs, candidates, k);
    CandidateIsAbout(bundle, traceId, cs[k]);
  }

  /** This candidate for this record is the goal's, and no record has a later one. */
  ghost predicate Wins(bundle: Bundle, traceId: Option<string>, c: Correction, best: Candidate) {
    && c in bundle.corrections && Wants(traceId, c.traceId) && IsAbout(bundle, traceId, c, best)
    && forall other :: other in bundle.corrections && Wants(traceId, other.traceId) ==>
         IsBeaten(bundle, traceId, other, best)
  }

  ghost predicate IsBeaten(bundle: Bundle, traceId: Option<string>, c: Correction, best: Candidate) {
    exists found :: IsAbout(bundle, traceId, c, found) && NoEarlier(best.correcting, found.correcting)
  }

  lemma {:induction false} EachIsBeaten(
    bundle: Bundle, traceId: Option<string>, cs: seq<Correction>, candidates: seq<Candidate>, best: Candidate,
    c: Correction)
    requires CandidatesOf(bundle, MessageEvents(bundle.traces, traceId), cs) == Ok(candidates) && c in cs
    requires NoneLater(best.correcting, Correcting(candidates))
    ensures IsBeaten(bundle, traceId, c, best)
  {
    var j :| 0 <= j < |cs| && cs[j] == c;
    CandidatesAre(bundle, traceId, MessageEvents(bundle.traces, traceId), cs, candidates, j);
    assert Correcting(candidates)[j] == candidates[j].correcting;
  }

  lemma {:induction false} GoalComesFrom(bundle: Bundle, traceId: Option<string>, goal: Goal)
    returns (cs: seq<Correction>, candidates: seq<Candidate>)
    requires GoalOf(bundle, LatestCorrection(traceId)) == Ok(goal)
    ensures cs == Filter(WantsCorrection(traceId), bundle.corrections) && candidates != []
    ensures CandidatesOf(bundle, MessageEvents(bundle.traces, traceId), cs) == Ok(candidates)
    ensures FromCandidate(LatestCandidate(candidates)) == Ok(goal)
  {
    cs := Filter(WantsCorrection(traceId), bundle.corrections);
    candidates := CandidatesOf(bundle, MessageEvents(bundle.traces, traceId), cs).value;
  }

  lemma {:induction false} WinnerOf(
    bundle: Bundle, traceId: Option<string>, cs: seq<Correction>, candidates: seq<Candidate>) returns (c: Correction)
    requires cs == Filter(WantsCorrection(traceId), bundle.corrections) && candidates != []
    requires CandidatesOf(bundle, MessageEvents(bundle.traces, traceId), cs) == Ok(candidates)
    ensures Wins(bundle, traceId, c, LatestCandidate(candidates))
  {
    var best := LatestCandidate(candidates);
    LatestIsNoEarlier(candidates);
    var k :| 0 <= k < |candidates| && candidates[k] == best;
    c := cs[k];
    CandidatesAre(bundle, traceId, MessageEvents(bundle.traces, traceId), cs, candidates, k);
    FilterMember(WantsCorrection(traceId), bundle.corrections, c);
    forall other | other in bundle.corrections && Wants(traceId, other.traceId)
      ensures IsBeaten(bundle, traceId, other, best)
    {
      FilterMember(WantsCorrection(traceId), bundle.corrections, other);
      EachIsBeaten(bundle, traceId, cs, candidates, best, other);
    }
  }

  /** The goal of any bundle under the latest-correction strategy. */
  lemma {:induction false} GoalIsTheLatestCorrection(bundle: Bundle, traceId: Option<string>, goal: Goal)
    returns (c: Correction, best: Candidate)
    requires GoalOf(bundle, LatestCorrection(traceId)) == Ok(goal)
    ensures Wins(bundle, traceId, c, best)
    ensures goal == Goal(best.correcting.content, [best.corrected, best.correcting, best.feedback])
    ensures 1 <= |goal.text| <= MAX_GOAL
  {
    var cs, candidates := GoalComesFrom(bundle, traceId, goal);
    best := LatestCandidate(candidates);
    c := WinnerOf(bundle, traceId, cs, candidates);
  }

  lemma {:induction false} UserMessagesAre(bundle: Bundle, traceId: Option<string>, e: Event)
    ensures e in Filter(IsUserMessage(), MessageEvents(bundle.traces, traceId)) <==>
              IsMessageOf(bundle, traceId, e) && e.role == User
  {
    FilterMember(IsUserMessage(), MessageEvents(bundle.traces, traceId), e);
    MessageEventsAre(bundle, bundle.traces, traceId, e);
  }

  /** The goal of any bundle under the latest-user-message strategy. */
  lemma {:induction false} GoalIsTheLatestUserMessage(bundle: Bundle, traceId: Option<string>, goal: Goal)
    returns (e: Event)
    requires GoalOf(bundle, LatestUserMessage(traceId)) == Ok(goal)
    ensures IsMessageOf(bundle, traceId, e) && e.role == User && goal == Goal(e.content, [e])
    ensures forall other :: IsMessageOf(bundle, traceId, other) && other.role == User ==> NoEarlier(e, other)
  {
    var mine := Filter(IsUserMessage(), MessageEvents(bundle.traces, traceId));
    e := LatestEvent(mine);
    LatestEventIsNoEarlier(mine);
    UserMessagesAre(bundle, traceId, e);
    forall other | IsMessageOf(bundle, traceId, other) && other.role == User ensures NoEarlier(e, other) {
      UserMessagesAre(bundle, traceId, other);
    }
  }
}
