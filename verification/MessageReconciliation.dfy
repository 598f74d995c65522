/**
 One user message reaches the client in up to three shapes: the optimistic copy it drew itself, the echo
 of the bridge under the same id, and the copy of the desktop under another id.  They arrive in any
 order, any number of times, between unrelated events, and the list may be re-sorted in between.
 */
module MessageReconciliation {
  import opened Sequences
  import opened Wrappers
  import opened ClientEvents
  import opened SessionMerge

  /** What identifies the message: the client id, the desktop id, the thread and the trimmed text. */
  datatype Conversation = Conversation(clientId: string, desktopId: string, threadId: string, text: string)

  predicate SameMessage(env: Env, c: Conversation, e: Event) {
    IsUserMessage(e) && e.threadId == c.threadId && NormalizedUserMessageText(env, e) == Some(c.text)
  }

  predicate IsPendingCopy(env: Env, c: Conversation, e: Event) {
    SameMessage(env, c, e) && e.id == c.clientId && IsPendingPayload(e.payload)
  }

  predicate IsEchoCopy(env: Env, c: Conversation, e: Event) {
    SameMessage(env, c, e) && e.id == c.clientId && !IsPendingPayload(e.payload)
  }

  predicate IsDesktopCopy(env: Env, c: Conversation, e: Event) {
    SameMessage(env, c, e) && e.id == c.desktopId && IsCanonicalUserMessage(env, e)
  }

  predicate IsCopy(env: Env, c: Conversation, e: Event) {
    IsPendingCopy(env, c, e) || IsEchoCopy(env, c, e) || IsDesktopCopy(env, c, e)
  }

  /** Anything that shares an id or the text with the message. */
  predicate Related(env: Env, c: Conversation, e: Event) {
    e.id == c.clientId || e.id == c.desktopId || SameMessage(env, c, e)
  }

  function IsRelated(env: Env, c: Conversation): Event -> bool {
    (e: Event) => Related(env, c, e)
  }

  /** The entries of the list that show the message. */
  function Copies(env: Env, c: Conversation, events: seq<Event>): seq<Event> {
    Filter(IsRelated(env, c), events)
  }

  predicate WellNamed(env: Env, c: Conversation) {
    env.isBridgeId(c.clientId) && !env.isBridgeId(c.desktopId)
  }

  predicate Close(a: Event, b: Event) {
    Distance(a.createdAt, b.createdAt) <= RECONCILIATION_WINDOW_MS
  }

  /** A later copy takes the place of the one shown, or gives way to it. */
  predicate Joins(shown: Event, next: Event) {
    shown.id == next.id || IsPendingPayload(shown.payload) || Close(shown, next)
  }

  /** The copy shown once `next` has arrived: the desktop copy outlives the others. */
  function Shown(env: Env, c: Conversation, shown: Option<Event>, next: Event): Option<Event> {
    if !Related(env, c, next) then shown
    else if shown.Some? && IsDesktopCopy(env, c, shown.value) && !IsDesktopCopy(env, c, next) then shown
    else Some(next)
  }

  function AsList(shown: Option<Event>): seq<Event> {
    if shown.None? then [] else [shown.value]
  }

  // ------------------------------------------------------------- one arrival

  lemma CopiesUpdate(env: Env, c: Conversation, events: seq<Event>, i: nat, e: Event)
    requires i < |events|
    ensures Copies(env, c, events) == Copies(env, c, events[..i]) + Copies(env, c, [events[i]]) + Copies(env, c, events[i + 1..])
    ensures Copies(env, c, events[i := e]) == Copies(env, c, events[..i]) + Copies(env, c, [e]) + Copies(env, c, events[i + 1..])
  {
    var p := IsRelated(env, c);
    assert events == events[..i] + [events[i]] + events[i + 1..];
    assert events[i := e] == events[..i] + [e] + events[i + 1..];
    FilterAppend(p, events[..i] + [events[i]], events[i + 1..]);
    FilterAppend(p, events[..i], [events[i]]);
    FilterAppend(p, events[..i] + [e], events[i + 1..]);
    FilterAppend(p, events[..i], [e]);
  }

  lemma CopiesOfOne(env: Env, c: Conversation, e: Event)
    ensures Copies(env, c, [e]) == if Related(env, c, e) then [e] else []
  {
    FilterCons(IsRelated(env, c), e, []);
    assert [e] + [] == [e];
  }

  lemma CopiesMembers(env: Env, c: Conversation, events: seq<Event>, shown: Option<Event>)
    requires Copies(env, c, events) == AsList(shown)
    ensures forall e :: e in events && Related(env, c, e) ==> shown == Some(e)
    ensures shown.Some? ==> shown.value in events && Related(env, c, shown.value)
  {
    FilterMembers(IsRelated(env, c), events);
    assert forall e :: e in AsList(shown) <==> shown == Some(e);
  }

  lemma OnlyCopy(env: Env, c: Conversation, events: seq<Event>, shown: Event, i: nat)
    requires Copies(env, c, events) == [shown] && i < |events| && Related(env, c, events[i])
    ensures events[i] == shown
  {
    CopiesMembers(env, c, events, Some(shown));
    assert events[i] in events;
  }

  /** Replacing the only copy makes the replacement the only copy. */
  lemma CopyUpdate(env: Env, c: Conversation, events: seq<Event>, i: nat, e: Event)
    requires i < |events| && Related(env, c, e)
    requires Copies(env, c, events) == [events[i]]
    ensures Copies(env, c, events[i := e]) == [e]
  {
    CopiesMembers(env, c, events, Some(events[i]));
    CopiesUpdate(env, c, events, i, e);
    CopiesOfOne(env, c, e);
    CopiesOfOne(env, c, events[i]);
    var a, b := Copies(env, c, events[..i]), Copies(env, c, events[i + 1..]);
    assert |a + [events[i]] + b| == 1;
    assert a == [] && b == [];
  }

  lemma AppendUnrelated(env: Env, c: Conversation, events: seq<Event>, e: Event)
    ensures Copies(env, c, events + [e]) == Copies(env, c, events) + if Related(env, c, e) then [e] else []
  {
    FilterAppend(IsRelated(env, c), events, [e]);
    CopiesOfOne(env, c, e);
  }

  lemma UnrelatedTouch(env: Env, c: Conversation, before: Event, after: Event, e: Event)
    requires Touched(env, before, after, e) && !Related(env, c, e)
    requires IsCopy(env, c, before) || !Related(env, c, before)
    ensures after == before || (!Related(env, c, before) && !Related(env, c, after))
  {
  }

  lemma UnrelatedKeepsCopies(env: Env, c: Conversation, events: seq<Event>, shown: Option<Event>, e: Event)
    requires Copies(env, c, events) == AsList(shown) && (shown.Some? ==> IsCopy(env, c, shown.value))
    requires !Related(env, c, e)
    ensures Copies(env, c, AppendOrMerge(env, events, e)) == AsList(shown)
  {
    CopiesMembers(env, c, events, shown);
    AppendTouchesOne(env, events, e);
    var merged := AppendOrMerge(env, events, e);
    forall k | 0 <= k < |events|
      ensures merged[k] == events[k] || (!Related(env, c, events[k]) && !Related(env, c, merged[k]))
    {
      UnrelatedTouch(env, c, events[k], merged[k], e);
    }
    UnrelatedUpdates(env, c, events, merged, e);
  }

  /** A merged list that keeps related entries and brings in no others has the same copies. */
  lemma UnrelatedUpdates(env: Env, c: Conversation, events: seq<Event>, merged: seq<Event>, e: Event)
    requires |events| <= |merged| <= |events| + 1
    requires forall k :: 0 <= k < |events| ==>
      merged[k] == events[k] || (!Related(env, c, events[k]) && !Related(env, c, merged[k]))
    requires |merged| > |events| ==> !Related(env, c, merged[|events|])
    ensures Copies(env, c, merged) == Copies(env, c, events)
  {
    SamePositions(env, c, events, merged[..|events|]);
    if |merged| > |events| {
      assert merged == merged[..|events|] + [merged[|events|]];
      AppendUnrelated(env, c, merged[..|events|], merged[|events|]);
    } else {
      assert merged[..|events|] == merged;
    }
  }

  lemma {:induction false} SamePositions(env: Env, c: Conversation, a: seq<Event>, b: seq<Event>)
    requires |a| == |b|
    requires forall k :: 0 <= k < |a| ==> b[k] == a[k] || (!Related(env, c, a[k]) && !Related(env, c, b[k]))
    ensures Copies(env, c, a) == Copies(env, c, b)
  {
    if a != [] {
      SamePositions(env, c, a[1..], b[1..]);
    }
  }

  /** A copy that arrives first is appended. */
  lemma FirstCopy(env: Env, c: Conversation, events: seq<Event>, e: Event)
    requires Copies(env, c, events) == [] && IsCopy(env, c, e)
    ensures AppendOrMerge(env, events, e) == events + [e]
  {
    CopiesMembers(env, c, events, None);
    assert forall k :: 0 <= k < |events| ==> !Related(env, c, events[k]);
    assert forall k :: 0 <= k < |events| ==> !HasEventId(e.id)(events[k]) && !Reconciles(env, e)(events[k]);
  }

  lemma SameIdReplaces(env: Env, events: seq<Event>, e: Event)
    requires BaseType(e.eventType).None? && IndexWhere(HasEventId(e.id), events) < |events|
    ensures AppendOrMerge(env, events, e) == events[IndexWhere(HasEventId(e.id), events) := e]
  {
  }

  lemma NextCopySameId(env: Env, c: Conversation, events: seq<Event>, shown: Event, e: Event)
    requires Copies(env, c, events) == [shown] && IsCopy(env, c, e)
    requires IndexWhere(HasEventId(e.id), events) < |events|
    ensures shown.id == e.id && Copies(env, c, AppendOrMerge(env, events, e)) == [e]
  {
    var same := IndexWhere(HasEventId(e.id), events);
    assert HasEventId(e.id)(events[same]);
    SameIdReplaces(env, events, e);
    OnlyCopy(env, c, events, shown, same);
    CopyUpdate(env, c, events, same, e);
  }

  lemma NextCopyOtherId(env: Env, c: Conversation, events: seq<Event>, shown: Event, e: Event)
    requires Copies(env, c, events) == [shown] && IsCopy(env, c, e)
    requires IndexWhere(HasEventId(e.id), events) == |events|
    requires IndexWhere(Reconciles(env, e), events) < |events|
    ensures Copies(env, c, AppendOrMerge(env, events, e)) == if KeepsExisting(env, shown, e) then [shown] else [e]
  {
    var i := IndexWhere(Reconciles(env, e), events);
    ReconciledIsRelated(env, c, events[i], e);
    OnlyCopy(env, c, events, shown, i);
    CopyUpdate(env, c, events, i, e);
  }

  lemma ReconciledIsRelated(env: Env, c: Conversation, existing: Event, e: Event)
    requires Reconciles(env, e)(existing) && IsCopy(env, c, e)
    ensures Related(env, c, existing) && ShouldReconcile(env, existing, e)
  {
  }

  lemma ReconciledJoin(env: Env, c: Conversation, shown: Event, e: Event)
    requires WellNamed(env, c) && IsCopy(env, c, shown) && IsCopy(env, c, e) && shown.id != e.id
    ensures ShouldReconcile(env, shown, e) <==> Joins(shown, e)
  {
  }

  /** A copy under the other id is matched with the one shown exactly when they join. */
  lemma OtherIdReconciles(env: Env, c: Conversation, events: seq<Event>, shown: Event, e: Event)
    requires WellNamed(env, c) && Copies(env, c, events) == [shown]
    requires IsCopy(env, c, shown) && IsCopy(env, c, e) && shown.id != e.id
    ensures IndexWhere(Reconciles(env, e), events) < |events| <==> Joins(shown, e)
  {
    CopiesMembers(env, c, events, Some(shown));
    ReconciledJoin(env, c, shown, e);
    var i := IndexWhere(Reconciles(env, e), events);
    if i < |events| {
      ReconciledIsRelated(env, c, events[i], e);
      OnlyCopy(env, c, events, shown, i);
    } else {
      var k :| 0 <= k < |events| && events[k] == shown;
      assert !Reconciles(env, e)(events[k]);
    }
  }

  /** A later copy and the one shown become one exactly when they join; otherwise both are shown. */
  lemma NextCopy(env: Env, c: Conversation, events: seq<Event>, shown: Event, e: Event)
    requires WellNamed(env, c)
    requires Copies(env, c, events) == [shown] && IsCopy(env, c, shown) && IsCopy(env, c, e)
    ensures Copies(env, c, AppendOrMerge(env, events, e))
         == if Joins(shown, e) then AsList(Shown(env, c, Some(shown), e)) else [shown, e]
  {
    CopiesMembers(env, c, events, Some(shown));
    var same := IndexWhere(HasEventId(e.id), events);
    if same < |events| {
      NextCopySameId(env, c, events, shown, e);
    } else {
      assert forall k :: 0 <= k < |events| ==> !HasEventId(e.id)(events[k]);
      OtherIdReconciles(env, c, events, shown, e);
      if Joins(shown, e) {
        NextCopyOtherId(env, c, events, shown, e);
      } else {
        AppendUnrelated(env, c, events, e);
      }
    }
  }

  // --------------------------------------------------------------- whole runs

  /** An arrival, or a re-sort of the list by any comparator. */
  datatype Action = Arrive(event: Event) | Reorder(events: seq<Event>)

  ghost predicate Reaches(env: Env, from: seq<Event>, actions: seq<Action>, to: seq<Event>)
    decreases |actions|
  {
    if actions == [] then from == to
    else
      match actions[0]
      case Arrive(e) => Reaches(env, AppendOrMerge(env, from, e), actions[1..], to)
      case Reorder(events) => multiset(events) == multiset(from) && Reaches(env, events, actions[1..], to)
  }

  function Arrivals(actions: seq<Action>): seq<Event> {
    if actions == [] then []
    else (if actions[0].Arrive? then [actions[0].event] else []) + Arrivals(actions[1..])
  }

  /** Every arrival is a copy of the message or unrelated to it, and the copies are close in time. */
  ghost predicate Orderly(env: Env, c: Conversation, arrivals: seq<Event>) {
    && (forall e :: e in arrivals ==> IsCopy(env, c, e) || !Related(env, c, e))
    && forall a, b :: a in arrivals && b in arrivals && Related(env, c, a) && Related(env, c, b) ==> Close(a, b)
  }

  /** The last desktop copy that arrived, or else the last copy of any shape. */
  function Survivor(env: Env, c: Conversation, shown: Option<Event>, arrivals: seq<Event>): Option<Event>
    decreases |arrivals|
  {
    if arrivals == [] then shown else Survivor(env, c, Shown(env, c, shown, arrivals[0]), arrivals[1..])
  }

  lemma {:induction false} FilterPermuted(p: Event -> bool, a: seq<Event>, b: seq<Event>)
    requires multiset(a) == multiset(b)
    ensures multiset(Filter(p, a)) == multiset(Filter(p, b))
  {
    forall e
      ensures multiset(Filter(p, a))[e] == multiset(Filter(p, b))[e]
    {
      FilterCount(p, a, e);
      FilterCount(p, b, e);
    }
  }

  lemma {:induction false} FilterCount(p: Event -> bool, s: seq<Event>, e: Event)
    ensures multiset(Filter(p, s))[e] == if p(e) then multiset(s)[e] else 0
  {
    if s != [] {
      FilterCount(p, s[1..], e);
      assert s == [s[0]] + s[1..];
    }
  }

  lemma ReorderKeepsCopies(env: Env, c: Conversation, a: seq<Event>, b: seq<Event>, shown: Option<Event>)
    requires multiset(a) == multiset(b) && Copies(env, c, a) == AsList(shown)
    ensures Copies(env, c, b) == AsList(shown)
  {
    FilterPermuted(IsRelated(env, c), a, b);
    var x, y := Copies(env, c, a), Copies(env, c, b);
    assert |multiset(x)| == |x| && |multiset(y)| == |y|;
    if y != [] {
      assert y[0] in multiset(y);
      assert y == [y[0]] && x == [x[0]];
    }
  }

  lemma ArrivalStep(env: Env, c: Conversation, events: seq<Event>, shown: Option<Event>, e: Event)
    requires WellNamed(env, c)
    requires Copies(env, c, events) == AsList(shown)
    requires shown.Some? ==> IsCopy(env, c, shown.value)
    requires IsCopy(env, c, e) || !Related(env, c, e)
    requires shown.Some? && Related(env, c, e) ==> Joins(shown.value, e)
    ensures Copies(env, c, AppendOrMerge(env, events, e)) == AsList(Shown(env, c, shown, e))
  {
    if !Related(env, c, e) {
      UnrelatedKeepsCopies(env, c, events, shown, e);
    } else if shown.None? {
      FirstCopy(env, c, events, e);
      AppendUnrelated(env, c, events, e);
    } else {
      NextCopy(env, c, events, shown.value, e);
    }
  }

  /** Each copy that arrives joins the one then shown. */
  predicate AlwaysJoins(env: Env, c: Conversation, shown: Option<Event>, arrivals: seq<Event>)
    decreases |arrivals|
  {
    arrivals != [] ==>
      && (shown.Some? && Related(env, c, arrivals[0]) ==> Joins(shown.value, arrivals[0]))
      && AlwaysJoins(env, c, Shown(env, c, shown, arrivals[0]), arrivals[1..])
  }

  ghost predicate OnlyCopies(env: Env, c: Conversation, arrivals: seq<Event>) {
    forall e :: e in arrivals ==> IsCopy(env, c, e) || !Related(env, c, e)
  }

  /** A client copy and the desktop copy are both listed. */
  ghost predicate BothShown(env: Env, c: Conversation, events: seq<Event>) {
    && (exists x :: x in events && IsCopy(env, c, x) && x.id == c.clientId)
    && (exists y :: y in events && IsCopy(env, c, y) && y.id == c.desktopId)
  }

  lemma BothAreTwo(env: Env, c: Conversation, events: seq<Event>)
    requires WellNamed(env, c) && BothShown(env, c, events)
    ensures |Copies(env, c, events)| > 1
  {
    var x :| x in events && IsCopy(env, c, x) && x.id == c.clientId;
    var y :| y in events && IsCopy(env, c, y) && y.id == c.desktopId;
    FilterMembers(IsRelated(env, c), events);
    assert Related(env, c, x) && Related(env, c, y);
    TwoMembers(Copies(env, c, events), x, y);
  }

  /** A listed copy keeps its place, or a copy under its id takes it. */
  lemma ListedCopyStays(env: Env, c: Conversation, events: seq<Event>, x: Event, e: Event)
    requires x in events && IsCopy(env, c, x) && (IsCopy(env, c, e) || !Related(env, c, e))
    requires IsCopy(env, c, e) ==> exists z :: z in events && z.id == e.id
    ensures exists x' :: x' in AppendOrMerge(env, events, e) && IsCopy(env, c, x') && x'.id == x.id
  {
    var k :| 0 <= k < |events| && events[k] == x;
    var merged := AppendOrMerge(env, events, e);
    AppendTouchesOne(env, events, e);
    if IsCopy(env, c, e) {
      var z :| z in events && z.id == e.id;
      var j :| 0 <= j < |events| && events[j] == z;
      assert HasEventId(e.id)(events[j]);
      SameIdReplaces(env, events, e);
    }
    assert merged[k] in merged;
  }

  lemma BothStay(env: Env, c: Conversation, events: seq<Event>, e: Event)
    requires BothShown(env, c, events) && (IsCopy(env, c, e) || !Related(env, c, e))
    ensures BothShown(env, c, AppendOrMerge(env, events, e))
  {
    var x :| x in events && IsCopy(env, c, x) && x.id == c.clientId;
    var y :| y in events && IsCopy(env, c, y) && y.id == c.desktopId;
    ListedCopyStays(env, c, events, x, e);
    ListedCopyStays(env, c, events, y, e);
  }

  /** Once both are listed they stay so: neither a later copy nor a re-sort brings them together. */
  lemma {:induction false} BothStayOverRun(env: Env, c: Conversation, from: seq<Event>, actions: seq<Action>, to: seq<Event>)
    requires BothShown(env, c, from) && Reaches(env, from, actions, to) && OnlyCopies(env, c, Arrivals(actions))
    ensures BothShown(env, c, to)
    decreases |actions|
  {
    if actions != [] {
      match actions[0] {
        case Reorder(events) =>
          PermutedMembers(from, events);
          BothStayOverRun(env, c, events, actions[1..], to);
        case Arrive(e) =>
          BothStay(env, c, from, e);
          BothStayOverRun(env, c, AppendOrMerge(env, from, e), actions[1..], to);
      }
    }
  }

  lemma ApartAreBoth(env: Env, c: Conversation, events: seq<Event>, shown: Event, e: Event)
    requires WellNamed(env, c) && Copies(env, c, events) == [shown]
    requires IsCopy(env, c, shown) && IsCopy(env, c, e) && !Joins(shown, e)
    ensures BothShown(env, c, AppendOrMerge(env, events, e))
  {
    var merged := AppendOrMerge(env, events, e);
    NextCopy(env, c, events, shown, e);
    FilterMembers(IsRelated(env, c), merged);
    assert shown in [shown, e] && e in [shown, e];
  }

  lemma {:induction false} CopiesOverRun(
    env: Env, c: Conversation, from: seq<Event>, shown: Option<Event>, actions: seq<Action>, to: seq<Event>)
    requires WellNamed(env, c) && Reaches(env, from, actions, to) && OnlyCopies(env, c, Arrivals(actions))
    requires Copies(env, c, from) == AsList(shown) && (shown.Some? ==> IsCopy(env, c, shown.value))
    ensures if AlwaysJoins(env, c, shown, Arrivals(actions))
            then Copies(env, c, to) == AsList(Survivor(env, c, shown, Arrivals(actions)))
            else BothShown(env, c, to)
    decreases |actions|
  {
    if actions != [] {
      var rest := Arrivals(actions[1..]);
      match actions[0] {
        case Reorder(events) =>
          ReorderKeepsCopies(env, c, from, events, shown);
          assert [] + rest == rest;
          CopiesOverRun(env, c, events, shown, actions[1..], to);
        case Arrive(e) =>
          assert Arrivals(actions) == [e] + rest && (Arrivals(actions))[1..] == rest;
          if shown.Some? && Related(env, c, e) && !Joins(shown.value, e) {
            ApartAreBoth(env, c, from, shown.value, e);
            BothStayOverRun(env, c, AppendOrMerge(env, from, e), actions[1..], to);
          } else {
            ArrivalStep(env, c, from, shown, e);
            CopiesOverRun(env, c, AppendOrMerge(env, from, e), Shown(env, c, shown, e), actions[1..], to);
          }
      }
    }
  }

  /**
   From a list that does not show the message, a run of its copies, unrelated events and re-sorts ends with at
   most one copy exactly when each copy that arrives joins the one then shown.  That one copy is the last
   desktop copy that arrived, otherwise the last copy that arrived.
   */
  lemma OneCopyExactly(env: Env, c: Conversation, from: seq<Event>, actions: seq<Action>, to: seq<Event>)
    requires WellNamed(env, c) && Copies(env, c, from) == []
    requires OnlyCopies(env, c, Arrivals(actions)) && Reaches(env, from, actions, to)
    ensures |Copies(env, c, to)| <= 1 <==> AlwaysJoins(env, c, None, Arrivals(actions))
    ensures |Copies(env, c, to)| <= 1 ==> Copies(env, c, to) == AsList(Survivor(env, c, None, Arrivals(actions)))
  {
    CopiesOverRun(env, c, from, None, actions, to);
    if !AlwaysJoins(env, c, None, Arrivals(actions)) {
      BothAreTwo(env, c, to);
    }
  }

  lemma {:induction false} OrderlyJoins(env: Env, c: Conversation, shown: Option<Event>, arrivals: seq<Event>)
    requires Orderly(env, c, AsList(shown) + arrivals) && (shown.Some? ==> IsCopy(env, c, shown.value))
    ensures AlwaysJoins(env, c, shown, arrivals)
    decreases |arrivals|
  {
    if arrivals != [] {
      var e, rest, all := arrivals[0], arrivals[1..], AsList(shown) + arrivals;
      var next := Shown(env, c, shown, e);
      assert e in all && (shown.Some? ==> shown.value in all);
      assert forall x :: x in AsList(next) + rest ==> x in all;
      OrderlyJoins(env, c, next, rest);
    }
  }

  /** So copies that arrive close in time always end as one. */
  lemma OneCopySurvives(env: Env, c: Conversation, from: seq<Event>, actions: seq<Action>, to: seq<Event>)
    requires WellNamed(env, c) && Copies(env, c, from) == []
    requires Orderly(env, c, Arrivals(actions)) && Reaches(env, from, actions, to)
    ensures |Copies(env, c, to)| <= 1
    ensures Copies(env, c, to) == AsList(Survivor(env, c, None, Arrivals(actions)))
  {
    assert AsList(None) + Arrivals(actions) == Arrivals(actions);
    OrderlyJoins(env, c, None, Arrivals(actions));
    OneCopyExactly(env, c, from, actions, to);
  }

  /** What `Survivor` means: a copy that arrived, a desktop one as soon as one has arrived. */
  lemma {:induction false} SurvivorArrived(env: Env, c: Conversation, shown: Option<Event>, arrivals: seq<Event>)
    requires shown.Some? ==> IsCopy(env, c, shown.value)
    requires forall e :: e in arrivals ==> IsCopy(env, c, e) || !Related(env, c, e)
    ensures var s := Survivor(env, c, shown, arrivals);
            && (s.None? <==> shown.None? && forall e :: e in arrivals ==> !Related(env, c, e))
            && (s.Some? ==> IsCopy(env, c, s.value) && (s == shown || s.value in arrivals))
            && (s.Some? && ((shown.Some? && IsDesktopCopy(env, c, shown.value))
                            || exists e :: e in arrivals && IsDesktopCopy(env, c, e)) ==>
                IsDesktopCopy(env, c, s.value))
    decreases |arrivals|
  {
    if arrivals != [] {
      var next := Shown(env, c, shown, arrivals[0]);
      SurvivorArrived(env, c, next, arrivals[1..]);
      assert forall e :: e in arrivals <==> e == arrivals[0] || e in arrivals[1..];
      assert forall e :: IsCopy(env, c, e) ==> Related(env, c, e);
    }
  }

  // ------------------------------------------------------------- two arrivals

  /** Of two copies in any order, one is left exactly when the second joins the first. */
  lemma TwoArrivals(env: Env, c: Conversation, events: seq<Event>, first: Event, second: Event)
    requires WellNamed(env, c) && Copies(env, c, events) == []
    requires IsCopy(env, c, first) && IsCopy(env, c, second)
    ensures Copies(env, c, AppendOrMerge(env, AppendOrMerge(env, events, first), second))
         == if Joins(first, second) then AsList(Shown(env, c, Some(first), second)) else [first, second]
  {
    FirstCopy(env, c, events, first);
    AppendUnrelated(env, c, events, first);
    NextCopy(env, c, events + [first], first, second);
  }

  /** The optimistic copy gives way to the desktop copy at any distance in time. */
  lemma PendingThenDesktop(env: Env, c: Conversation, events: seq<Event>, pending: Event, desktop: Event)
    requires WellNamed(env, c) && Copies(env, c, events) == []
    requires IsPendingCopy(env, c, pending) && IsDesktopCopy(env, c, desktop)
    ensures Copies(env, c, AppendOrMerge(env, AppendOrMerge(env, events, pending), desktop)) == [desktop]
  {
    TwoArrivals(env, c, events, pending, desktop);
  }

  lemma CountTwo(env: Env, c: Conversation, events: seq<Event>, first: Event, second: Event)
    requires WellNamed(env, c) && Copies(env, c, events) == []
    requires IsCopy(env, c, first) && IsCopy(env, c, second)
    ensures |Copies(env, c, AppendOrMerge(env, AppendOrMerge(env, events, first), second))|
         == if Joins(first, second) then 1 else 2
  {
    TwoArrivals(env, c, events, first, second);
  }

  /** More than five minutes apart, a desktop copy and a client copy both stay, whichever comes first, unless the
      first is the optimistic one. */
  lemma DistantCopiesStay(env: Env, c: Conversation, events: seq<Event>, client: Event, desktop: Event)
    requires WellNamed(env, c) && Copies(env, c, events) == []
    requires (IsPendingCopy(env, c, client) || IsEchoCopy(env, c, client)) && IsDesktopCopy(env, c, desktop)
    requires !Close(client, desktop)
    ensures |Copies(env, c, AppendOrMerge(env, AppendOrMerge(env, events, desktop), client))| == 2
    ensures |Copies(env, c, AppendOrMerge(env, AppendOrMerge(env, events, client), desktop))|
         == if IsPendingCopy(env, c, client) then 1 else 2
  {
    CountTwo(env, c, events, desktop, client);
    CountTwo(env, c, events, client, desktop);
  }

  function UserMessage(c: Conversation, id: string, pending: bool, at: int): Event {
    Event(id, c.threadId, SessionEvents.Message,
          Object(Str("user"), Str(c.text), Absent, if pending then True else Absent, Absent, ""), at)
  }

  /** Copies of every shape exist at every time. */
  lemma CopiesExist(env: Env, c: Conversation, at: int)
    requires WellNamed(env, c) && env.trim(c.text) == c.text
    ensures IsPendingCopy(env, c, UserMessage(c, c.clientId, true, at))
    ensures IsEchoCopy(env, c, UserMessage(c, c.clientId, false, at))
    ensures IsDesktopCopy(env, c, UserMessage(c, c.desktopId, false, at))
  {
  }
}
