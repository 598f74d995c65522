/** Which events the merged list of the web client shows: what an arrival adds, and when an id leaves the list. */
module SessionListing {
  import opened Sequences
  import opened SessionEvents
  import opened ClientEvents
  import opened SessionMerge
  import opened MessageReconciliation

  predicate IsDelta(e: Event) {
    e.eventType == MessageDelta || e.eventType == ReasoningSummaryDelta || e.eventType == PlanDelta
  }

  ghost predicate Listed(events: seq<Event>, id: string) {
    exists k :: 0 <= k < |events| && events[k].id == id
  }

  lemma NoneWithId(events: seq<Event>, id: string)
    ensures Listed(events, id) <==> IndexWhere(HasEventId(id), events) < |events|
  {
    var same := IndexWhere(HasEventId(id), events);
    if same < |events| {
      assert HasEventId(id)(events[same]);
    } else {
      assert forall k :: 0 <= k < |events| ==> !HasEventId(id)(events[k]);
    }
  }

  lemma FirstReconciled(env: Env, events: seq<Event>, e: Event)
    ensures var copy := IndexWhere(Reconciles(env, e), events);
      && (copy < |events| ==> ShouldReconcile(env, events[copy], e))
      && (forall k :: 0 <= k < copy ==> !ShouldReconcile(env, events[k], e))
  {
    var copy := IndexWhere(Reconciles(env, e), events);
    if copy < |events| {
      assert Reconciles(env, e)(events[copy]);
    }
    assert forall k :: 0 <= k < copy ==> !Reconciles(env, e)(events[k]);
  }

  /** A whole event that no listed one matches is appended as it is. */
  lemma NewEventIsAppended(env: Env, events: seq<Event>, e: Event)
    requires !IsDelta(e) && !Listed(events, e.id)
    requires forall k :: 0 <= k < |events| ==> !ShouldReconcile(env, events[k], e)
    ensures AppendOrMerge(env, events, e) == events + [e]
  {
    NoneWithId(events, e.id);
    FirstReconciled(env, events, e);
  }

  /** A whole event whose id is listed takes the place of the entry. */
  lemma SameIdIsReplaced(env: Env, events: seq<Event>, e: Event, i: nat)
    requires !IsDelta(e) && UniqueEventIds(events) && i < |events| && events[i].id == e.id
    ensures AppendOrMerge(env, events, e) == events[i := e]
  {
    var same := IndexWhere(HasEventId(e.id), events);
    assert HasEventId(e.id)(events[i]);
    assert same == i;
  }

  /** The arrival takes the place of a copy of its message that is listed under the id. */
  ghost predicate Taken(env: Env, events: seq<Event>, e: Event, id: string) {
    && IsUserMessage(e) && !Listed(events, e.id)
    && exists k :: 0 <= k < |events| && events[k].id == id && IsTaken(env, events, e, k)
  }

  ghost predicate IsTaken(env: Env, events: seq<Event>, e: Event, k: nat)
    requires k < |events|
  {
    && ShouldReconcile(env, events[k], e) && (forall j :: 0 <= j < k ==> !ShouldReconcile(env, events[j], e))
    && !(IsPendingPayload(e.payload) && IsBridgeUserEcho(env, events[k]))
    && !(IsBridgeUserEcho(env, e) && IsCanonicalUserMessage(env, events[k]))
  }

  lemma TakenIsReplaced(env: Env, events: seq<Event>, e: Event, k: nat)
    requires IsUserMessage(e) && !Listed(events, e.id) && k < |events| && IsTaken(env, events, e, k)
    ensures AppendOrMerge(env, events, e) == events[k := e]
  {
    NoneWithId(events, e.id);
    FirstReconciled(env, events, e);
  }

  /** An id leaves the list exactly when an arriving user message takes the place of its entry. */
  lemma IdLeavesExactly(env: Env, events: seq<Event>, e: Event, id: string)
    requires UniqueEventIds(events) && Listed(events, id)
    ensures !Listed(AppendOrMerge(env, events, e), id) <==> Taken(env, events, e, id)
  {
    var merged := AppendOrMerge(env, events, e);
    var i :| 0 <= i < |events| && events[i].id == id;
    AppendTouchesOne(env, events, e);
    if Taken(env, events, e, id) {
      TakenIsReplaced(env, events, e, i);
      assert e.id != id;
    } else if merged[i].id != id {
      EntryWasTaken(env, events, e, i);
    }
  }

  lemma EntryWasTaken(env: Env, events: seq<Event>, e: Event, i: nat)
    requires UniqueEventIds(events) && i < |events|
    requires |AppendOrMerge(env, events, e)| >= |events| && AppendOrMerge(env, events, e)[i].id != events[i].id
    ensures Taken(env, events, e, events[i].id)
  {
    if Listed(events, e.id) {
      ListedIdKeepsIds(env, events, e, i);
    }
    NoneWithId(events, e.id);
    FirstReconciled(env, events, e);
  }

  lemma ListedIdKeepsIds(env: Env, events: seq<Event>, e: Event, i: nat)
    requires Listed(events, e.id) && i < |events|
    ensures |AppendOrMerge(env, events, e)| >= |events| && AppendOrMerge(env, events, e)[i].id == events[i].id
  {
    NoneWithId(events, e.id);
    assert HasEventId(e.id)(events[IndexWhere(HasEventId(e.id), events)]);
  }

  /** No other id than its own comes into the list with an arrival. */
  lemma OnlyItsIdComes(env: Env, events: seq<Event>, e: Event, id: string)
    requires Listed(AppendOrMerge(env, events, e), id) && id != e.id
    ensures Listed(events, id)
  {
    var merged := AppendOrMerge(env, events, e);
    AppendTouchesOne(env, events, e);
    var k :| 0 <= k < |merged| && merged[k].id == id;
    if k < |events| {
      assert Touched(env, events[k], merged[k], e);
    }
  }

  // --------------------------------------------------------------- whole runs

  ghost predicate ListedAsOther(events: seq<Event>, id: string) {
    exists k :: 0 <= k < |events| && events[k].id == id && !IsUserMessage(events[k])
  }

  lemma OtherEntryTouched(env: Env, before: Event, after: Event, e: Event)
    requires Touched(env, before, after, e) && !IsUserMessage(before) && (e.id == before.id ==> !IsUserMessage(e))
    ensures after.id == before.id && !IsUserMessage(after)
  {
  }

  lemma OtherStaysListed(env: Env, events: seq<Event>, e: Event, id: string)
    requires ListedAsOther(events, id) && (e.id == id ==> !IsUserMessage(e))
    ensures ListedAsOther(AppendOrMerge(env, events, e), id)
  {
    var k :| 0 <= k < |events| && events[k].id == id && !IsUserMessage(events[k]);
    AppendTouchesOne(env, events, e);
    var merged := AppendOrMerge(env, events, e);
    OtherEntryTouched(env, events[k], merged[k], e);
  }

  lemma OtherGetsListed(env: Env, events: seq<Event>, e: Event)
    requires UniqueEventIds(events) && !IsDelta(e) && !IsUserMessage(e)
    ensures ListedAsOther(AppendOrMerge(env, events, e), e.id)
  {
    if i :| 0 <= i < |events| && events[i].id == e.id {
      SameIdIsReplaced(env, events, e, i);
      assert AppendOrMerge(env, events, e)[i] == e;
    } else {
      NewEventIsAppended(env, events, e);
      assert AppendOrMerge(env, events, e)[|events|] == e;
    }
  }

  /** Every answer, tool event, approval, plan and error that arrives whole is listed to the end, unless a user
      message later arrives under its id. */
  lemma {:induction false} EveryArrivalIsListed(env: Env, events: seq<Event>, arrivals: seq<Event>, i: nat)
    requires UniqueEventIds(events) && i < |arrivals| && !IsDelta(arrivals[i]) && !IsUserMessage(arrivals[i])
    requires forall j :: i < j < |arrivals| && arrivals[j].id == arrivals[i].id ==> !IsUserMessage(arrivals[j])
    ensures Listed(MergeInto(env, events, arrivals), arrivals[i].id)
    ensures ListedAsOther(MergeInto(env, events, arrivals), arrivals[i].id)
    decreases |arrivals|
  {
    var front, e := arrivals[..|arrivals| - 1], arrivals[|arrivals| - 1];
    MergeIntoKeepsIdsUnique(env, events, front);
    if i < |front| {
      EveryArrivalIsListed(env, events, front, i);
      OtherStaysListed(env, MergeInto(env, events, front), e, arrivals[i].id);
    } else {
      OtherGetsListed(env, MergeInto(env, events, front), e);
    }
  }

  /** The exception is real: under the id of a listed event an optimistic copy arrives, and then the desktop copy. */
  lemma IdCanBeTaken(env: Env, c: Conversation, e: Event, pending: Event, desktop: Event)
    requires WellNamed(env, c) && !IsDelta(e) && !IsUserMessage(e) && e.id == c.clientId
    requires IsPendingCopy(env, c, pending) && IsDesktopCopy(env, c, desktop)
    ensures !Listed(MergeInto(env, [], [e, pending, desktop]), e.id)
  {
    var three, two := [e, pending, desktop], [e, pending];
    assert three[..2] == two && two[..1] == [e] && [e][..0] == [];
    NewEventIsAppended(env, [], e);
    assert MergeInto(env, [], [e]) == [e];
    SameIdIsReplaced(env, [e], pending, 0);
    assert MergeInto(env, [], two) == [pending];
    assert IsTaken(env, [pending], desktop, 0);
    TakenIsReplaced(env, [pending], desktop, 0);
    assert MergeInto(env, [], three) == [desktop];
  }

  // --------------------------------------------------- messages sent repeatedly

  /** A user message that is neither optimistic nor an echo of the bridge. */
  predicate FromDesktop(env: Env, e: Event) {
    && e.eventType == SessionEvents.Message && e.payload.Object? && e.payload.role == Str("user") && e.payload.text.Str?
    && e.payload.pending != True && e.payload.bridgeEcho != True && !env.isBridgeId(e.id)
  }

  /** A user message that the bridge has echoed: it says so, or its id does. */
  predicate FromBridge(env: Env, e: Event) {
    && e.eventType == SessionEvents.Message && e.payload.Object? && e.payload.role == Str("user") && e.payload.text.Str?
    && e.payload.pending != True && (e.payload.bridgeEcho == True || env.isBridgeId(e.id))
  }

  predicate SameTrimmedText(env: Env, a: Event, b: Event)
    requires a.payload.Object? && a.payload.text.Str? && b.payload.Object? && b.payload.text.Str?
  {
    a.threadId == b.threadId && env.trim(a.payload.text.text) == env.trim(b.payload.text.text)
  }

  /** The same text sent twice from the desktop is shown twice. */
  lemma RepeatedTextIsListed(env: Env, events: seq<Event>, e: Event)
    requires FromDesktop(env, e) && !Listed(events, e.id)
    requires forall x :: x in events && IsUserMessage(x) ==> FromDesktop(env, x)
    ensures AppendOrMerge(env, events, e) == events + [e]
  {
    forall k | 0 <= k < |events|
      ensures !ShouldReconcile(env, events[k], e)
    {
      assert events[k] in events;
    }
    NewEventIsAppended(env, events, e);
  }

  /** An echo and the desktop copy of one text, at most five minutes apart, are shown once, as the desktop copy. */
  lemma EchoGivesWay(env: Env, echo: Event, desktop: Event)
    requires FromBridge(env, echo) && FromDesktop(env, desktop) && echo.id != desktop.id
    requires SameTrimmedText(env, echo, desktop) && -300_000 <= echo.createdAt - desktop.createdAt <= 300_000
    ensures AppendOrMerge(env, [echo], desktop) == [desktop]
    ensures AppendOrMerge(env, [desktop], echo) == [desktop]
  {
    assert ShouldReconcile(env, echo, desktop) && ShouldReconcile(env, desktop, echo);
    assert Reconciles(env, desktop)([echo][0]) && Reconciles(env, echo)([desktop][0]);
  }

  /** Further apart, or with another text or in another thread, both are shown. */
  lemma DistantEchoStays(env: Env, echo: Event, desktop: Event)
    requires FromBridge(env, echo) && FromDesktop(env, desktop) && echo.id != desktop.id
    requires SameTrimmedText(env, echo, desktop)
             ==> echo.createdAt - desktop.createdAt > 300_000 || desktop.createdAt - echo.createdAt > 300_000
    ensures AppendOrMerge(env, [echo], desktop) == [echo, desktop]
    ensures AppendOrMerge(env, [desktop], echo) == [desktop, echo]
  {
    assert !ShouldReconcile(env, echo, desktop) && !ShouldReconcile(env, desktop, echo);
    NewEventIsAppended(env, [echo], desktop);
    NewEventIsAppended(env, [desktop], echo);
  }
}
