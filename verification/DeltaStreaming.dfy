/**
 A message, reasoning summary or plan that arrives as a run of deltas under one id, between other events,
 is assembled into one list entry that holds the concatenation of the deltas.
 */
module DeltaStreaming {
  import opened Sequences
  import opened SessionEvents
  import opened Wrappers
  import opened ClientEvents
  import opened SessionMerge

  /** A delta of the streamed item. */
  predicate IsPart(id: string, base: EventType, e: Event) {
    e.id == id && BaseType(e.eventType) == Some(base)
  }

  /** Another event: it has its own id and is not a delta of the same family. */
  predicate IsBystander(id: string, base: EventType, e: Event) {
    e.id != id && BaseType(e.eventType) != Some(base)
  }

  predicate IsBase(base: EventType) {
    base == Message || base == ReasoningSummary || base == Plan
  }

  /** The deltas of the item, joined in order of arrival. */
  function Joined(id: string, arrivals: seq<Event>): string {
    if arrivals == [] then ""
    else
      var e := arrivals[|arrivals| - 1];
      Joined(id, arrivals[..|arrivals| - 1]) + if e.id == id then DeltaText(e.payload) else ""
  }

  /** The list has exactly one entry for the item, complete up to `text`. */
  ghost predicate Assembled(events: seq<Event>, id: string, threadId: string, base: EventType, text: string) {
    && UniqueEventIds(events)
    && exists k :: 0 <= k < |events| && IsAssembly(events[k], id, threadId, base, text)
  }

  predicate IsAssembly(e: Event, id: string, threadId: string, base: EventType, text: string) {
    && e.id == id && e.threadId == threadId && e.eventType == base
    && e.payload.Object? && e.payload.role == Str(StreamingRole(base)) && e.payload.text == Str(text)
  }

  predicate Unlisted(events: seq<Event>, id: string) {
    forall k :: 0 <= k < |events| ==> events[k].id != id
  }

  /** The last entry would swallow a delta of this family. */
  predicate EndsInFamily(events: seq<Event>, threadId: string, base: EventType) {
    events != [] && events[|events| - 1].threadId == threadId && CanAppendStreamDelta(events[|events| - 1], base)
  }

  lemma FirstPart(env: Env, events: seq<Event>, e: Event, base: EventType)
    requires UniqueEventIds(events) && Unlisted(events, e.id) && IsBase(base)
    requires BaseType(e.eventType) == Some(base) && DeltaText(e.payload) != ""
    requires !EndsInFamily(events, e.threadId, base)
    ensures Assembled(AppendOrMerge(env, events, e), e.id, e.threadId, base, DeltaText(e.payload))
  {
    AppendKeepsIdsUnique(env, events, e);
    var merged := AppendOrMerge(env, events, e);
    assert IsAssembly(merged[|events|], e.id, e.threadId, base, DeltaText(e.payload));
  }

  lemma NextPart(env: Env, events: seq<Event>, e: Event, id: string, threadId: string, base: EventType, text: string)
    requires Assembled(events, id, threadId, base, text) && IsBase(base) && IsPart(id, base, e)
    ensures Assembled(AppendOrMerge(env, events, e), id, threadId, base, text + DeltaText(e.payload))
  {
    AppendKeepsIdsUnique(env, events, e);
    var k :| 0 <= k < |events| && IsAssembly(events[k], id, threadId, base, text);
    var i := IndexWhere(HasEventId(id), events);
    assert HasEventId(id)(events[k]);
    assert i == k;
    var merged := AppendOrMerge(env, events, e);
    assert text + "" == text;
    assert IsAssembly(merged[k], id, threadId, base, text + DeltaText(e.payload));
  }

  lemma BystanderLeavesAssembly(
    env: Env, events: seq<Event>, e: Event, id: string, threadId: string, base: EventType, text: string)
    requires Assembled(events, id, threadId, base, text) && IsBase(base) && IsBystander(id, base, e)
    ensures Assembled(AppendOrMerge(env, events, e), id, threadId, base, text)
  {
    AppendKeepsIdsUnique(env, events, e);
    AppendTouchesOne(env, events, e);
    var k :| 0 <= k < |events| && IsAssembly(events[k], id, threadId, base, text);
    assert AppendOrMerge(env, events, e)[k] == events[k];
  }

  /** The arrivals are parts of one item and bystanders. */
  predicate IsStream(id: string, base: EventType, arrivals: seq<Event>) {
    forall e :: e in arrivals ==> IsPart(id, base, e) || IsBystander(id, base, e)
  }

  /**
   A fresh id whose first delta does not follow an entry of its own family: whatever bystanders come in
   between, the result has one entry for it, and its text is the concatenation of its deltas.
   */
  lemma {:induction false} DeltasAssemble(env: Env, events: seq<Event>, arrivals: seq<Event>, base: EventType)
    requires UniqueEventIds(events) && arrivals != [] && IsBase(base)
    requires Unlisted(events, arrivals[0].id) && !EndsInFamily(events, arrivals[0].threadId, base)
    requires IsStream(arrivals[0].id, base, arrivals) && DeltaText(arrivals[0].payload) != ""
    ensures Assembled(MergeInto(env, events, arrivals), arrivals[0].id, arrivals[0].threadId, base, Joined(arrivals[0].id, arrivals))
  {
    var front, e := arrivals[..|arrivals| - 1], arrivals[|arrivals| - 1];
    var id, threadId := arrivals[0].id, arrivals[0].threadId;
    assert e in arrivals;
    if front == [] {
      assert MergeInto(env, events, front) == events && Joined(id, front) == "";
      assert "" + DeltaText(e.payload) == DeltaText(e.payload);
      FirstPart(env, events, e, base);
    } else {
      assert front[0] == arrivals[0] && forall x :: x in front ==> x in arrivals;
      DeltasAssemble(env, events, front, base);
      var text := Joined(id, front);
      assert text + "" == text;
      if e.id == id {
        NextPart(env, MergeInto(env, events, front), e, id, threadId, base, text);
      } else {
        BystanderLeavesAssembly(env, MergeInto(env, events, front), e, id, threadId, base, text);
      }
    }
  }

  /** A delta without text changes nothing, so a stream may as well start at its first visible delta. */
  lemma EmptyDeltaIsDropped(env: Env, events: seq<Event>, e: Event, base: EventType)
    requires BaseType(e.eventType) == Some(base) && DeltaText(e.payload) == ""
    requires forall k :: 0 <= k < |events| && events[k].id == e.id ==> CanAppendStreamDelta(events[k], base)
    ensures AppendOrMerge(env, events, e) == events
  {
    var i := IndexWhere(HasEventId(e.id), events);
    assert i < |events| ==> HasEventId(e.id)(events[i]);
  }

  /** Otherwise the first delta is swallowed by the entry before it, and the id never appears. */
  lemma FamilyEndSwallowsDelta(env: Env, events: seq<Event>, e: Event, base: EventType)
    requires Unlisted(events, e.id) && BaseType(e.eventType) == Some(base) && DeltaText(e.payload) != ""
    ensures Unlisted(AppendOrMerge(env, events, e), e.id) <==> EndsInFamily(events, e.threadId, base)
  {
    assert IndexWhere(HasEventId(e.id), events) == |events|;
    var merged := AppendOrMerge(env, events, e);
    if !EndsInFamily(events, e.threadId, base) {
      assert merged[|events|].id == e.id;
    }
  }

  // ------------------------------------------ the same, in terms of the types

  /** The text that a delta brings: its text, or else its delta. */
  predicate Brings(payload: Payload, text: string) {
    match payload
    case Object(_, Str(t), _, _, _, _) => text == t
    case Object(_, _, Str(d), _, _, _) => text == d
    case _ => text == ""
  }

  /** An entry that a delta of this type extends. */
  predicate Extends(t: EventType, entry: Event) {
    match t
    case MessageDelta =>
      entry.eventType == Message && entry.payload.Object? && entry.payload.role == Str("assistant")
    case ReasoningSummaryDelta => entry.eventType == ReasoningSummary || entry.eventType == ReasoningSummaryDelta
    case PlanDelta => entry.eventType == Plan || entry.eventType == PlanDelta
    case _ => false
  }

  /** The entry under which a first delta is shown. */
  predicate Opens(e: Event, entry: Event, text: string) {
    && entry.id == e.id && entry.threadId == e.threadId && entry.createdAt == e.createdAt
    && entry.payload.Object? && entry.payload.text == Str(text)
    && match e.eventType
       case MessageDelta => entry.eventType == Message && entry.payload.role == Str("assistant")
       case ReasoningSummaryDelta => entry.eventType == ReasoningSummary && entry.payload.role == Str("reasoning")
       case PlanDelta => entry.eventType == Plan && entry.payload.role == Str("plan")
       case _ => false
  }

  predicate IsDeltaType(t: EventType) {
    t == MessageDelta || t == ReasoningSummaryDelta || t == PlanDelta
  }

  /** The last entry is of the delta's thread and family. */
  predicate EndsWith(events: seq<Event>, e: Event) {
    events != [] && events[|events| - 1].threadId == e.threadId && Extends(e.eventType, events[|events| - 1])
  }

  lemma EndsInFamilySpelledOut(events: seq<Event>, e: Event, base: EventType)
    requires IsDeltaType(e.eventType) && BaseType(e.eventType) == Some(base)
    ensures EndsInFamily(events, e.threadId, base) <==> EndsWith(events, e)
  {
  }

  /** The entry that a swallowing entry becomes. */
  predicate Continues(before: Event, after: Event, e: Event, text: string) {
    && after.id == before.id && after.threadId == before.threadId && after.createdAt == e.createdAt
    && (before.payload.Object? && before.payload.text.Str? ==>
          after.payload.Object? && after.payload.text == Str(before.payload.text.text + text))
  }

  lemma FirstDeltaSwallowed(env: Env, events: seq<Event>, e: Event, text: string)
    requires IsDeltaType(e.eventType) && Unlisted(events, e.id) && Brings(e.payload, text) && text != ""
    requires EndsWith(events, e)
    ensures var merged, n := AppendOrMerge(env, events, e), |events|;
            |merged| == n && merged[..n - 1] == events[..n - 1] && Continues(events[n - 1], merged[n - 1], e, text)
  {
    assert IndexWhere(HasEventId(e.id), events) == |events|;
    EndsInFamilySpelledOut(events, e, BaseType(e.eventType).value);
  }

  lemma FirstDeltaOpens(env: Env, events: seq<Event>, e: Event, text: string)
    requires IsDeltaType(e.eventType) && Unlisted(events, e.id) && Brings(e.payload, text) && text != ""
    requires !EndsWith(events, e)
    ensures var merged, n := AppendOrMerge(env, events, e), |events|;
            |merged| == n + 1 && merged[..n] == events && Opens(e, merged[n], text)
  {
    assert IndexWhere(HasEventId(e.id), events) == |events|;
    EndsInFamilySpelledOut(events, e, BaseType(e.eventType).value);
  }

  /** A first delta with text extends the last entry when that is of its thread and family, and opens an entry of
      its own otherwise. */
  lemma FirstDelta(env: Env, events: seq<Event>, e: Event, text: string)
    requires e.eventType == MessageDelta || e.eventType == ReasoningSummaryDelta || e.eventType == PlanDelta
    requires Unlisted(events, e.id) && Brings(e.payload, text) && text != ""
    ensures var merged, n := AppendOrMerge(env, events, e), |events|;
            if n > 0 && events[n - 1].threadId == e.threadId && Extends(e.eventType, events[n - 1]) then
              |merged| == n && merged[..n - 1] == events[..n - 1] && Continues(events[n - 1], merged[n - 1], e, text)
            else
              |merged| == n + 1 && merged[..n] == events && Opens(e, merged[n], text)
  {
    if EndsWith(events, e) {
      FirstDeltaSwallowed(env, events, e, text);
    } else {
      FirstDeltaOpens(env, events, e, text);
    }
  }
}
