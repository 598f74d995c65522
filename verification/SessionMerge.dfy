/**
 How the web client folds an arriving event into the list of a thread: replacement by id, streamed
 deltas, and reconciliation of the copies of one user message.
 */
module SessionMerge {
  import opened Sequences
  import opened SessionEvents
  import opened Wrappers
  import opened ClientEvents

  const RECONCILIATION_WINDOW_MS: int := 5 * 60 * 1000

  /** The type whose text a delta extends. */
  function BaseType(t: EventType): Option<EventType> {
    match t
    case MessageDelta => Some(Message)
    case ReasoningSummaryDelta => Some(ReasoningSummary)
    case PlanDelta => Some(Plan)
    case _ => None
  }

  function Family(t: EventType): Option<EventType> {
    if BaseType(t).Some? then BaseType(t)
    else if t == Message || t == ReasoningSummary || t == Plan then Some(t)
    else None
  }

  predicate CanAppendStreamDelta(e: Event, base: EventType) {
    if base == Message then IsAssistantMessage(e) else Family(e.eventType) == Some(base)
  }

  function StreamingRole(base: EventType): string {
    if base == ReasoningSummary then "reasoning" else if base == Plan then "plan" else "assistant"
  }

  function StreamingPayload(payload: Payload, base: EventType, text: string): Payload {
    var metadata := if payload.Object? then payload else Object(Absent, Absent, Absent, Absent, Absent, "");
    metadata.(role := Str(StreamingRole(base)), text := Str(text), delta := Absent)
  }

  function StreamedEvent(env: Env, current: Event, base: EventType, delta: string, createdAt: int): Event {
    current.(eventType := base,
             payload := StreamingPayload(current.payload, base, PayloadText(env, current.payload) + delta),
             createdAt := createdAt)
  }

  function Distance(a: int, b: int): int {
    if a < b then b - a else a - b
  }

  predicate ShouldReconcile(env: Env, existing: Event, next: Event) {
    && IsUserMessage(existing) && IsUserMessage(next)
    && existing.threadId == next.threadId
    && NormalizedUserMessageText(env, existing) == NormalizedUserMessageText(env, next)
    && if IsPendingPayload(existing.payload) then !IsPendingPayload(next.payload)
       else
         && (IsBridgeUserEcho(env, existing) || IsBridgeUserEcho(env, next))
         && Distance(existing.createdAt, next.createdAt) <= RECONCILIATION_WINDOW_MS
  }

  function Reconciles(env: Env, next: Event): Event -> bool {
    (existing: Event) => ShouldReconcile(env, existing, next)
  }

  /** The copy already listed outranks the arriving one. */
  predicate KeepsExisting(env: Env, existing: Event, next: Event) {
    || (IsPendingPayload(next.payload) && IsBridgeUserEcho(env, existing))
    || (IsBridgeUserEcho(env, next) && IsCanonicalUserMessage(env, existing))
  }

  function MergeSameId(env: Env, events: seq<Event>, i: nat, e: Event): seq<Event>
    requires i < |events|
  {
    var base := BaseType(e.eventType);
    if base.Some? && CanAppendStreamDelta(events[i], base.value) then
      var delta := DeltaText(e.payload);
      if delta == "" then events
      else events[i := StreamedEvent(env, events[i], base.value, delta, e.createdAt)]
    else if events[i] == e then events
    else events[i := e]
  }

  function AppendNew(env: Env, events: seq<Event>, e: Event): seq<Event> {
    var base := BaseType(e.eventType);
    if base.None? then events + [e]
    else
      var delta, n := DeltaText(e.payload), |events|;
      if delta == "" then events
      else if n > 0 && events[n - 1].threadId == e.threadId && CanAppendStreamDelta(events[n - 1], base.value) then
        events[n - 1 := StreamedEvent(env, events[n - 1], base.value, delta, e.createdAt)]
      else events + [e.(eventType := base.value, payload := StreamingPayload(e.payload, base.value, delta))]
  }

  function AppendOrMerge(env: Env, events: seq<Event>, e: Event): seq<Event> {
    var same := IndexWhere(HasEventId(e.id), events);
    if same < |events| then MergeSameId(env, events, same, e)
    else
      var copy := if IsUserMessage(e) then IndexWhere(Reconciles(env, e), events) else |events|;
      if copy < |events| then
        if KeepsExisting(env, events[copy], e) then events else events[copy := e]
      else AppendNew(env, events, e)
  }

  function MergeInto(env: Env, events: seq<Event>, arrivals: seq<Event>): seq<Event> {
    if arrivals == [] then events
    else AppendOrMerge(env, MergeInto(env, events, arrivals[..|arrivals| - 1]), arrivals[|arrivals| - 1])
  }

  function MergeSessionEvents(env: Env, arrivals: seq<Event>): seq<Event> {
    MergeInto(env, [], arrivals)
  }

  // -------------------------------------------------------------- unique ids

  lemma AppendKeepsIdsUnique(env: Env, events: seq<Event>, e: Event)
    requires UniqueEventIds(events)
    ensures UniqueEventIds(AppendOrMerge(env, events, e))
  {
    var same := IndexWhere(HasEventId(e.id), events);
    assert same == |events| ==> forall k :: 0 <= k < |events| ==> !HasEventId(e.id)(events[k]);
  }

  lemma {:induction false} MergeIntoKeepsIdsUnique(env: Env, events: seq<Event>, arrivals: seq<Event>)
    requires UniqueEventIds(events)
    ensures UniqueEventIds(MergeInto(env, events, arrivals))
  {
    if arrivals != [] {
      var front := arrivals[..|arrivals| - 1];
      MergeIntoKeepsIdsUnique(env, events, front);
      AppendKeepsIdsUnique(env, MergeInto(env, events, front), arrivals[|arrivals| - 1]);
    }
  }

  /** Folding any sequence of events, from nothing, gives a list without repeated ids. */
  lemma MergedIdsAreUnique(env: Env, arrivals: seq<Event>)
    ensures UniqueEventIds(MergeSessionEvents(env, arrivals))
  {
    MergeIntoKeepsIdsUnique(env, [], arrivals);
  }

  /** What an arrival may do to an event already listed: nothing, replace it, or extend it by its text. */
  predicate Touched(env: Env, before: Event, after: Event, e: Event) {
    || after == before
    || (after == e && (before.id == e.id || ShouldReconcile(env, before, e)))
    || (after.id == before.id && BaseType(e.eventType).Some?
        && CanAppendStreamDelta(before, BaseType(e.eventType).value)
        && after == StreamedEvent(env, before, BaseType(e.eventType).value, DeltaText(e.payload), e.createdAt))
  }

  /** Nothing listed is dropped, and positions do not move. */
  lemma AppendTouchesOne(env: Env, events: seq<Event>, e: Event)
    ensures var merged := AppendOrMerge(env, events, e);
            && |events| <= |merged| <= |events| + 1
            && (|merged| > |events| ==> merged[..|events|] == events && merged[|events|].id == e.id)
            && forall k :: 0 <= k < |events| ==> Touched(env, events[k], merged[k], e)
  {
  }
}
