/**
 The adapter event cache: live tool events and polled turn snapshots merged in place into one
 vector, kept id-unique and sorted by creation time, item order and id.

 `itemOrder` is the number an event id carries, read off by a parser that this model leaves open;
 every result holds for any such function.
 */
module AdapterCache {
  import opened Sequences
  import opened Text
  import opened Wrappers
  import opened Ordering
  import opened SessionEvents
  import EventPaging

  type ItemOrder = string -> Option<nat>

  // ------------------------------------------------------------ the comparator

  predicate OrderLess(a: Option<nat>, b: Option<nat>) {
    match (a, b)
    case (None, Some(_)) => true
    case (Some(m), Some(n)) => m < n
    case _ => false
  }

  predicate EventLess(itemOrder: ItemOrder, a: SessionEvent, b: SessionEvent) {
    || a.createdAt < b.createdAt
    || (a.createdAt == b.createdAt
        && (|| OrderLess(itemOrder(a.id), itemOrder(b.id))
            || (itemOrder(a.id) == itemOrder(b.id) && Less(a.id, b.id))))
  }

  function Comparator(itemOrder: ItemOrder): (SessionEvent, SessionEvent) -> bool {
    (a, b) => EventLess(itemOrder, a, b)
  }

  /** The comparator is a strict order, and total on events with different ids. */
  lemma ComparatorIsStrict(itemOrder: ItemOrder)
    ensures StrictOrder(Comparator(itemOrder))
    ensures forall a: SessionEvent, b: SessionEvent :: a.id != b.id
              ==> Comparator(itemOrder)(a, b) || Comparator(itemOrder)(b, a)
  {
    forall a: SessionEvent ensures !EventLess(itemOrder, a, a) {
      LessIrreflexive(a.id);
    }
    forall a: SessionEvent, b: SessionEvent, c: SessionEvent | EventLess(itemOrder, a, b) && EventLess(itemOrder, b, c)
      ensures EventLess(itemOrder, a, c)
    {
      if Less(a.id, b.id) && Less(b.id, c.id) {
        LessTransitive(a.id, b.id, c.id);
      }
    }
    forall a: SessionEvent, b: SessionEvent | a.id != b.id
      ensures EventLess(itemOrder, a, b) || EventLess(itemOrder, b, a)
    {
      LessTotal(a.id, b.id);
    }
  }

  /** In a sorted vector no event is older than one in front of it; events of one time are in the order of their
      item numbers, those without a number first; and equal numbers leave the order of the ids. */
  lemma SortedMeansOldestFirst(itemOrder: ItemOrder, events: seq<SessionEvent>, i: nat, j: nat)
    requires Sorted(Comparator(itemOrder), events) && i < j < |events|
    ensures events[i].createdAt <= events[j].createdAt
    ensures events[i].createdAt == events[j].createdAt ==>
              match (itemOrder(events[i].id), itemOrder(events[j].id))
              case (None, None) => Less(events[i].id, events[j].id)
              case (None, Some(_)) => true
              case (Some(_), None) => false
              case (Some(m), Some(n)) => m < n || (m == n && Less(events[i].id, events[j].id))
  {
    assert Comparator(itemOrder)(events[i], events[j]);
  }

  // ----------------------------------------- the reference: a map keyed by id

  type Content = map<string, SessionEvent>

  /** `events` lists exactly the entries of `content`, each once. */
  ghost predicate Holds(events: seq<SessionEvent>, content: Content) {
    && UniqueIds(events)
    && (forall e :: e in events <==> e.id in content && content[e.id] == e)
    && (forall id :: id in content ==> content[id].id == id)
  }

  /** Later events replace earlier ones with the same id. */
  ghost function Overlay(content: Content, incoming: seq<SessionEvent>): Content
    decreases |incoming|
  {
    if incoming == [] then content
    else Overlay(content[incoming[0].id := incoming[0]], incoming[1..])
  }

  ghost function LastWithId(incoming: seq<SessionEvent>, id: string): Option<SessionEvent> {
    if incoming == [] then None
    else
      var later := LastWithId(incoming[1..], id);
      if later.Some? then later else if incoming[0].id == id then Some(incoming[0]) else None
  }

  lemma {:induction false} OverlayAt(content: Content, incoming: seq<SessionEvent>, id: string)
    ensures match LastWithId(incoming, id)
            case Some(e) => e.id == id && e in incoming
                            && id in Overlay(content, incoming) && Overlay(content, incoming)[id] == e
            case None => (id in Overlay(content, incoming) <==> id in content)
                         && (id in content ==> Overlay(content, incoming)[id] == content[id])
    decreases |incoming|
  {
    if incoming != [] {
      OverlayAt(content[incoming[0].id := incoming[0]], incoming[1..], id);
    }
  }

  lemma {:induction false} LastWithIdFound(incoming: seq<SessionEvent>, id: string)
    ensures LastWithId(incoming, id).Some? <==> exists e :: e in incoming && e.id == id
  {
    if incoming != [] {
      LastWithIdFound(incoming[1..], id);
      assert forall e :: e in incoming <==> e == incoming[0] || e in incoming[1..];
    }
  }

  // -------------------------------------------------------------------- merge

  function Upsert(events: seq<SessionEvent>, event: SessionEvent): seq<SessionEvent> {
    var i := IndexWhere(HasId(event.id), events);
    if i < |events| then events[i := event] else events + [event]
  }

  function UpsertAll(events: seq<SessionEvent>, incoming: seq<SessionEvent>): seq<SessionEvent>
    decreases |incoming|
  {
    if incoming == [] then events else UpsertAll(Upsert(events, incoming[0]), incoming[1..])
  }

  function Merge(itemOrder: ItemOrder, events: seq<SessionEvent>, incoming: seq<SessionEvent>): seq<SessionEvent> {
    Sort(Comparator(itemOrder), UpsertAll(events, incoming))
  }

  lemma UpsertHolds(events: seq<SessionEvent>, content: Content, event: SessionEvent)
    requires Holds(events, content)
    ensures Holds(Upsert(events, event), content[event.id := event])
    ensures |Upsert(events, event)| == |events| + if event.id in content then 0 else 1
  {
    var i := IndexWhere(HasId(event.id), events);
    var events', content' := Upsert(events, event), content[event.id := event];
    if event.id in content {
      assert content[event.id] in events;
      var k :| 0 <= k < |events| && events[k] == content[event.id];
      assert HasId(event.id)(events[k]);
    }
    if i < |events| {
      assert events[i] in events;
      forall e ensures e in events' <==> e.id in content' && content'[e.id] == e {
        if e.id in content' && content'[e.id] == e && e.id != event.id {
          var k :| 0 <= k < |events| && events[k] == e;
          assert events'[k] == e;
        }
        if e == event { assert events'[i] == e; }
      }
    } else {
      forall e ensures e in events' <==> e.id in content' && content'[e.id] == e {
        assert e in events' <==> e in events || e == event;
      }
    }
  }

  lemma {:induction false} UpsertAllHolds(events: seq<SessionEvent>, content: Content, incoming: seq<SessionEvent>)
    requires Holds(events, content)
    ensures Holds(UpsertAll(events, incoming), Overlay(content, incoming))
    decreases |incoming|
  {
    if incoming != [] {
      UpsertHolds(events, content, incoming[0]);
      UpsertAllHolds(Upsert(events, incoming[0]), content[incoming[0].id := incoming[0]], incoming[1..]);
    }
  }

  lemma HoldsSorted(itemOrder: ItemOrder, events: seq<SessionEvent>, content: Content)
    requires Holds(events, content)
    ensures Holds(Sort(Comparator(itemOrder), events), content)
    ensures Sorted(Comparator(itemOrder), Sort(Comparator(itemOrder), events))
  {
    var less := Comparator(itemOrder);
    var sorted := Sort(less, events);
    ComparatorIsStrict(itemOrder);
    SortSorted(less, events);
    SameElements(sorted, events);
    forall i, j | 0 <= i < j < |sorted| ensures sorted[i].id != sorted[j].id {
      assert sorted[i] in sorted && sorted[j] in sorted;
      assert less(sorted[i], sorted[j]);
      assert sorted[i] != sorted[j];
    }
  }

  /** Merging overlays the incoming events on the content and leaves the one sorted listing of it. */
  lemma MergeIsCanonical(itemOrder: ItemOrder, events: seq<SessionEvent>, content: Content, incoming: seq<SessionEvent>)
    requires Holds(events, content)
    ensures Holds(Merge(itemOrder, events, incoming), Overlay(content, incoming))
    ensures Sorted(Comparator(itemOrder), Merge(itemOrder, events, incoming))
  {
    UpsertAllHolds(events, content, incoming);
    HoldsSorted(itemOrder, UpsertAll(events, incoming), Overlay(content, incoming));
  }

  /** Canonicity: sorted listings of one content are equal. */
  lemma SameContentSameVector(itemOrder: ItemOrder, a: seq<SessionEvent>, b: seq<SessionEvent>, content: Content)
    requires Holds(a, content) && Holds(b, content)
    requires Sorted(Comparator(itemOrder), a) && Sorted(Comparator(itemOrder), b)
    ensures a == b
  {
    ComparatorIsStrict(itemOrder);
    forall e ensures e in a <==> e in b {
      assert e in a <==> e.id in content && content[e.id] == e;
    }
    SortedUnique(Comparator(itemOrder), a, b);
  }

  ghost function ContentOf(events: seq<SessionEvent>): Content {
    Overlay(map[], events)
  }

  lemma HoldsContentOf(events: seq<SessionEvent>)
    requires UniqueIds(events)
    ensures Holds(events, ContentOf(events))
  {
    var content := ContentOf(events);
    forall e ensures e in events <==> e.id in content && content[e.id] == e {
      OverlayAt(map[], events, e.id);
      LastWithIdFound(events, e.id);
      if e in events {
        var e' := LastWithId(events, e.id).value;
        var i :| 0 <= i < |events| && events[i] == e;
        var j :| 0 <= j < |events| && events[j] == e';
        assert i == j;
      }
    }
    forall id | id in content ensures content[id].id == id {
      OverlayAt(map[], events, id);
    }
  }

  lemma OverlayCommutes(content: Content, a: seq<SessionEvent>, b: seq<SessionEvent>)
    requires forall x, y :: x in a && y in b ==> x.id != y.id
    ensures Overlay(Overlay(content, a), b) == Overlay(Overlay(content, b), a)
  {
    var ab, ba := Overlay(Overlay(content, a), b), Overlay(Overlay(content, b), a);
    forall id ensures (id in ab <==> id in ba) && (id in ab ==> ab[id] == ba[id]) {
      OverlayAt(content, a, id);
      OverlayAt(content, b, id);
      OverlayAt(Overlay(content, a), b, id);
      OverlayAt(Overlay(content, b), a, id);
    }
  }

  /** Pages with disjoint ids may be merged in either order. */
  lemma DisjointPagesCommute(itemOrder: ItemOrder, events: seq<SessionEvent>, a: seq<SessionEvent>, b: seq<SessionEvent>)
    requires UniqueIds(events)
    requires forall x, y :: x in a && y in b ==> x.id != y.id
    ensures Merge(itemOrder, Merge(itemOrder, events, a), b) == Merge(itemOrder, Merge(itemOrder, events, b), a)
  {
    HoldsContentOf(events);
    var c := ContentOf(events);
    var ma, mb := Merge(itemOrder, events, a), Merge(itemOrder, events, b);
    MergeIsCanonical(itemOrder, events, c, a);
    MergeIsCanonical(itemOrder, events, c, b);
    MergeIsCanonical(itemOrder, ma, Overlay(c, a), b);
    MergeIsCanonical(itemOrder, mb, Overlay(c, b), a);
    OverlayCommutes(c, a, b);
    SameContentSameVector(itemOrder, Merge(itemOrder, ma, b), Merge(itemOrder, mb, a), Overlay(Overlay(c, a), b));
  }

  /** How the cache was laid out before does not matter, only what it held. */
  lemma MergeIgnoresLayout(itemOrder: ItemOrder, a: seq<SessionEvent>, b: seq<SessionEvent>, content: Content,
                           incoming: seq<SessionEvent>)
    requires Holds(a, content) && Holds(b, content)
    ensures Merge(itemOrder, a, incoming) == Merge(itemOrder, b, incoming)
  {
    MergeIsCanonical(itemOrder, a, content, incoming);
    MergeIsCanonical(itemOrder, b, content, incoming);
    SameContentSameVector(itemOrder, Merge(itemOrder, a, incoming), Merge(itemOrder, b, incoming),
                          Overlay(content, incoming));
  }

  // ------------------------------------------------ replacing a turn snapshot

  predicate BelongsToTurn(id: string, turn: string) {
    |turn| < |id| && id[..|turn|] == turn && id[|turn|] == ':'
  }

  /** The first listed turn that claims the event. */
  function TurnOf(id: string, turns: seq<string>): Option<string> {
    if turns == [] then None
    else if BelongsToTurn(id, turns[0]) then Some(turns[0])
    else TurnOf(id, turns[1..])
  }

  function Earlier(a: Option<nat>, b: nat): Option<nat> {
    if a.Some? && a.value <= b then a else Some(b)
  }

  /** When the snapshot first speaks of the turn. */
  function Anchor(incoming: seq<SessionEvent>, turn: string): Option<nat> {
    if incoming == [] then None
    else
      var rest := Anchor(incoming[1..], turn);
      if BelongsToTurn(incoming[0].id, turn) then Earlier(rest, incoming[0].createdAt) else rest
  }

  /** Tool events of a turn in the snapshot move to that turn's anchor. */
  function Rewrite(event: SessionEvent, incoming: seq<SessionEvent>, turns: seq<string>): SessionEvent {
    var turn := TurnOf(event.id, turns);
    if IsTool(event) && turn.Some? && Anchor(incoming, turn.value).Some?
    then event.(createdAt := Anchor(incoming, turn.value).value)
    else event
  }

  predicate Retained(event: SessionEvent, incoming: seq<SessionEvent>, turns: seq<string>, active: seq<string>) {
    match TurnOf(event.id, turns)
    case None => !IsTool(event)
    case Some(turn) =>
      && (forall e | e in incoming :: e.id != event.id)
      && (event.eventType == ToolResult || (event.eventType == ToolCall && turn in active))
  }

  function RewriteAll(events: seq<SessionEvent>, incoming: seq<SessionEvent>, turns: seq<string>): (r: seq<SessionEvent>)
    ensures |r| == |events|
    ensures forall i :: 0 <= i < |r| ==> r[i] == Rewrite(events[i], incoming, turns)
  {
    seq(|events|, i requires 0 <= i < |events| => Rewrite(events[i], incoming, turns))
  }

  function Retain(incoming: seq<SessionEvent>, turns: seq<string>, active: seq<string>): SessionEvent -> bool {
    (event: SessionEvent) => Retained(event, incoming, turns, active)
  }

  function Survivors(events: seq<SessionEvent>, incoming: seq<SessionEvent>, turns: seq<string>,
                     active: seq<string>): seq<SessionEvent> {
    Filter(Retain(incoming, turns, active), RewriteAll(events, incoming, turns))
  }

  function ReplaceTurns(itemOrder: ItemOrder, events: seq<SessionEvent>, incoming: seq<SessionEvent>,
                        turns: seq<string>, active: seq<string>): seq<SessionEvent> {
    Merge(itemOrder, Survivors(events, incoming, turns, active), incoming)
  }

  /** What survives of a content, entry by entry. */
  ghost function Surviving(content: Content, incoming: seq<SessionEvent>, turns: seq<string>, active: seq<string>): Content {
    map id | id in content && Retained(content[id], incoming, turns, active) :: Rewrite(content[id], incoming, turns)
  }

  lemma {:induction false} FilterUnique(p: SessionEvent -> bool, events: seq<SessionEvent>)
    requires UniqueIds(events)
    ensures UniqueIds(Filter(p, events))
  {
    if events != [] {
      FilterUnique(p, events[1..]);
      FilterMembers(p, events[1..]);
      assert forall x :: x in events[1..] ==> x.id != events[0].id;
    }
  }

  lemma SurvivorsUnique(events: seq<SessionEvent>, incoming: seq<SessionEvent>, turns: seq<string>, active: seq<string>)
    requires UniqueIds(events)
    ensures UniqueIds(Survivors(events, incoming, turns, active))
    ensures forall e :: e in Survivors(events, incoming, turns, active) <==>
              exists x :: x in events && Retained(x, incoming, turns, active) && Rewrite(x, incoming, turns) == e
  {
    var rewritten := RewriteAll(events, incoming, turns);
    FilterUnique(Retain(incoming, turns, active), rewritten);
    FilterMembers(Retain(incoming, turns, active), rewritten);
    forall e ensures e in Survivors(events, incoming, turns, active) <==>
        exists x :: x in events && Retained(x, incoming, turns, active) && Rewrite(x, incoming, turns) == e
    {
      if e in Survivors(events, incoming, turns, active) {
        var i :| 0 <= i < |rewritten| && rewritten[i] == e;
        assert events[i] in events;
      }
      if x :| x in events && Retained(x, incoming, turns, active) && Rewrite(x, incoming, turns) == e {
        var i :| 0 <= i < |events| && events[i] == x;
        assert rewritten[i] == e;
      }
    }
  }

  lemma SurvivorsHold(events: seq<SessionEvent>, content: Content, incoming: seq<SessionEvent>,
                      turns: seq<string>, active: seq<string>)
    requires Holds(events, content)
    ensures Holds(Survivors(events, incoming, turns, active), Surviving(content, incoming, turns, active))
  {
    SurvivorsUnique(events, incoming, turns, active);
  }

  /** The snapshot's content wins by id; of the rest exactly the surviving entries stay. */
  lemma ReplaceIsCanonical(itemOrder: ItemOrder, events: seq<SessionEvent>, content: Content,
                           incoming: seq<SessionEvent>, turns: seq<string>, active: seq<string>)
    requires Holds(events, content)
    ensures Holds(ReplaceTurns(itemOrder, events, incoming, turns, active),
                  Overlay(Surviving(content, incoming, turns, active), incoming))
    ensures Sorted(Comparator(itemOrder), ReplaceTurns(itemOrder, events, incoming, turns, active))
  {
    SurvivorsHold(events, content, incoming, turns, active);
    MergeIsCanonical(itemOrder, Survivors(events, incoming, turns, active),
                     Surviving(content, incoming, turns, active), incoming);
  }

  /** The event id is the turn, a colon, and more. */
  ghost predicate StartsTurn(id: string, turn: string) {
    exists rest :: id == turn + ":" + rest
  }

  lemma BelongsMeansStarts(id: string, turn: string)
    ensures BelongsToTurn(id, turn) <==> StartsTurn(id, turn)
  {
    if BelongsToTurn(id, turn) {
      assert id == turn + ":" + id[|turn| + 1..];
    }
  }

  lemma {:induction false} TurnOfIsFirst(id: string, turns: seq<string>)
    ensures TurnOf(id, turns).None? <==> forall k :: 0 <= k < |turns| ==> !StartsTurn(id, turns[k])
    ensures TurnOf(id, turns).Some? ==>
              exists k :: 0 <= k < |turns| && turns[k] == TurnOf(id, turns).value && StartsTurn(id, turns[k])
                          && forall m :: 0 <= m < k ==> !StartsTurn(id, turns[m])
  {
    if turns != [] {
      BelongsMeansStarts(id, turns[0]);
      TurnOfIsFirst(id, turns[1..]);
      if TurnOf(id, turns).Some? && !StartsTurn(id, turns[0]) {
        var k :| 0 <= k < |turns[1..]| && turns[1..][k] == TurnOf(id, turns).value && StartsTurn(id, turns[1..][k])
                 && forall m :: 0 <= m < k ==> !StartsTurn(id, turns[1..][m]);
        assert turns[k + 1] == turns[1..][k];
        forall m | 0 <= m < k + 1 ensures !StartsTurn(id, turns[m]) {
          assert m > 0 ==> turns[m] == turns[1..][m - 1];
        }
      }
    }
  }

  /** Of the cached events whose id the snapshot does not list: outside the listed turns, all but tool events stay;
      in a listed turn, tool results stay, tool calls while the turn is active, and nothing else. */
  ghost predicate Stays(event: SessionEvent, turns: seq<string>, active: seq<string>) {
    if forall k :: 0 <= k < |turns| ==> !StartsTurn(event.id, turns[k])
    then event.eventType != ToolCall && event.eventType != ToolResult
    else event.eventType == ToolResult
         || (event.eventType == ToolCall
             && exists k :: 0 <= k < |turns| && StartsTurn(event.id, turns[k]) && turns[k] in active
                            && forall m :: 0 <= m < k ==> !StartsTurn(event.id, turns[m]))
  }

  lemma RetainedMeansStays(event: SessionEvent, incoming: seq<SessionEvent>, turns: seq<string>, active: seq<string>)
    requires forall e :: e in incoming ==> e.id != event.id
    ensures Retained(event, incoming, turns, active) <==> Stays(event, turns, active)
  {
    TurnOfIsFirst(event.id, turns);
    if TurnOf(event.id, turns).Some? {
      var k :| 0 <= k < |turns| && turns[k] == TurnOf(event.id, turns).value && StartsTurn(event.id, turns[k])
               && forall m :: 0 <= m < k ==> !StartsTurn(event.id, turns[m]);
      forall j | 0 <= j < |turns| && StartsTurn(event.id, turns[j]) && forall m :: 0 <= m < j ==> !StartsTurn(event.id, turns[m])
        ensures j == k
      {
      }
    }
  }

  /** Which ids are listed after a turn snapshot: its own, and those of the cached events that stay. */
  lemma ReplacementLists(itemOrder: ItemOrder, events: seq<SessionEvent>, incoming: seq<SessionEvent>,
                         turns: seq<string>, active: seq<string>, id: string)
    requires UniqueIds(events)
    ensures (exists e :: e in ReplaceTurns(itemOrder, events, incoming, turns, active) && e.id == id)
       <==> (exists e :: e in incoming && e.id == id)
            || (exists e :: e in events && e.id == id && Stays(e, turns, active))
  {
    HoldsContentOf(events);
    var content := ContentOf(events);
    ReplaceIsCanonical(itemOrder, events, content, incoming, turns, active);
    var kept := Surviving(content, incoming, turns, active);
    OverlayAt(kept, incoming, id);
    LastWithIdFound(incoming, id);
    if LastWithId(incoming, id).None? && id in content {
      RetainedMeansStays(content[id], incoming, turns, active);
      assert content[id] in events;
    }
    assert id in Overlay(kept, incoming) <==>
           exists e :: e in ReplaceTurns(itemOrder, events, incoming, turns, active) && e.id == id by {
      if id in Overlay(kept, incoming) {
        assert Overlay(kept, incoming)[id] in ReplaceTurns(itemOrder, events, incoming, turns, active);
      }
    }
    assert forall e :: e in events && e.id == id ==> id in content && content[id] == e;
  }

  lemma SurvivingTwice(content: Content, incoming: seq<SessionEvent>, turns: seq<string>, active: seq<string>)
    requires forall id :: id in content ==> content[id].id == id
    ensures var once := Overlay(Surviving(content, incoming, turns, active), incoming);
            Overlay(Surviving(once, incoming, turns, active), incoming) == once
  {
    var kept := Surviving(content, incoming, turns, active);
    var once := Overlay(kept, incoming);
    var kept' := Surviving(once, incoming, turns, active);
    var twice := Overlay(kept', incoming);
    forall id ensures (id in twice <==> id in once) && (id in twice ==> twice[id] == once[id]) {
      OverlayAt(kept, incoming, id);
      OverlayAt(kept', incoming, id);
      if LastWithId(incoming, id).None? && id in kept {
        assert once[id] == Rewrite(content[id], incoming, turns);
        assert Retained(once[id], incoming, turns, active);
        assert Rewrite(once[id], incoming, turns) == once[id];
      }
    }
  }

  /** Replaying the same turn snapshot leaves the cache as it is, in content and in layout. */
  lemma ReplayIsIdempotent(itemOrder: ItemOrder, events: seq<SessionEvent>, incoming: seq<SessionEvent>,
                           turns: seq<string>, active: seq<string>)
    requires UniqueIds(events)
    ensures var once := ReplaceTurns(itemOrder, events, incoming, turns, active);
            ReplaceTurns(itemOrder, once, incoming, turns, active) == once
  {
    HoldsContentOf(events);
    var content := ContentOf(events);
    var once := ReplaceTurns(itemOrder, events, incoming, turns, active);
    var c1 := Overlay(Surviving(content, incoming, turns, active), incoming);
    ReplaceIsCanonical(itemOrder, events, content, incoming, turns, active);
    ReplaceIsCanonical(itemOrder, once, c1, incoming, turns, active);
    SurvivingTwice(content, incoming, turns, active);
    SameContentSameVector(itemOrder, ReplaceTurns(itemOrder, once, incoming, turns, active), once, c1);
  }

  lemma {:induction false} AnchorIsEarliest(incoming: seq<SessionEvent>, turn: string)
    ensures forall x :: x in incoming && BelongsToTurn(x.id, turn)
              ==> Anchor(incoming, turn).Some? && Anchor(incoming, turn).value <= x.createdAt
    ensures Anchor(incoming, turn).Some? ==>
              exists x :: x in incoming && BelongsToTurn(x.id, turn) && x.createdAt == Anchor(incoming, turn).value
  {
    if incoming != [] {
      AnchorIsEarliest(incoming[1..], turn);
      assert forall x :: x in incoming <==> x == incoming[0] || x in incoming[1..];
    }
  }

  /** A tool event of a listed turn of which the snapshot has an event. */
  ghost predicate Moves(e: SessionEvent, incoming: seq<SessionEvent>, turns: seq<string>) {
    && IsTool(e)
    && TurnOf(e.id, turns).Some?
    && exists x :: x in incoming && BelongsToTurn(x.id, TurnOf(e.id, turns).value)
  }

  /** The event has the earliest time at which the snapshot speaks of its turn. */
  ghost predicate AtTurnStart(e: SessionEvent, incoming: seq<SessionEvent>, turns: seq<string>)
    requires Moves(e, incoming, turns)
  {
    var turn := TurnOf(e.id, turns).value;
    && (forall x :: x in incoming && BelongsToTurn(x.id, turn) ==> e.createdAt <= x.createdAt)
    && (exists x :: x in incoming && BelongsToTurn(x.id, turn) && e.createdAt == x.createdAt)
  }

  lemma RewriteMoves(cached: SessionEvent, incoming: seq<SessionEvent>, turns: seq<string>)
    ensures var e := Rewrite(cached, incoming, turns);
      && e == cached.(createdAt := e.createdAt)
      && (if Moves(e, incoming, turns) then AtTurnStart(e, incoming, turns) else e == cached)
  {
    if TurnOf(cached.id, turns).Some? {
      AnchorIsEarliest(incoming, TurnOf(cached.id, turns).value);
    }
  }

  /** Every event of the result is either the snapshot's or one that was cached. A cached tool event of a
      listed turn that the snapshot speaks of is moved to the start of that turn; any other keeps its time. */
  lemma SnapshotSurvivors(itemOrder: ItemOrder, events: seq<SessionEvent>, incoming: seq<SessionEvent>,
                          turns: seq<string>, active: seq<string>, e: SessionEvent)
    requires UniqueIds(events)
    requires e in ReplaceTurns(itemOrder, events, incoming, turns, active)
    ensures LastWithId(incoming, e.id) == Some(e)
            || exists cached :: cached in events && cached == e.(createdAt := cached.createdAt)
    ensures LastWithId(incoming, e.id).None? ==>
              if Moves(e, incoming, turns) then AtTurnStart(e, incoming, turns) else e in events
  {
    HoldsContentOf(events);
    var content := ContentOf(events);
    ReplaceIsCanonical(itemOrder, events, content, incoming, turns, active);
    var kept := Surviving(content, incoming, turns, active);
    OverlayAt(kept, incoming, e.id);
    if LastWithId(incoming, e.id).None? {
      assert e == kept[e.id];
      assert content[e.id] in events;
      RewriteMoves(content[e.id], incoming, turns);
    }
  }

  // ------------------------------------------------------------ paging backwards

  const MAX_HISTORY_PAGES: nat := 4

  datatype FetchOutcome = More | Done | AdapterError

  datatype QueryResult = Answered(events: seq<SessionEvent>, hasMoreOlder: bool) | Refused | AdapterFailed

  datatype TurnPage = TurnPage(
    events: seq<SessionEvent>, turnIds: seq<string>, activeTurnIds: seq<string>, nextCursor: Option<string>)

  function MergePages(itemOrder: ItemOrder, events: seq<SessionEvent>, pages: seq<seq<SessionEvent>>): seq<SessionEvent>
    decreases |pages|
  {
    if pages == [] then events
    else Merge(itemOrder, MergePages(itemOrder, events, pages[..|pages| - 1]), pages[|pages| - 1])
  }

  /** The cursor in force after `n` older pages have been fetched, starting from `cursor`. */
  function CursorAfter(fetch: (nat, Option<string>) -> Option<TurnPage>, cursor: Option<string>, n: nat): Option<string> {
    if n == 0 then cursor
    else
      var page := fetch(n, CursorAfter(fetch, cursor, n - 1));
      if page.Some? then page.value.nextCursor else None
  }

  /** Each page was asked for with the cursor that the page before it named. */
  ghost predicate FetchedInTurn(fetch: (nat, Option<string>) -> Option<TurnPage>, cursor: Option<string>,
                                pages: seq<seq<SessionEvent>>)
    decreases |pages|
  {
    var n := |pages|;
    n == 0 ||
    (var at := CursorAfter(fetch, cursor, n - 1);
     && FetchedInTurn(fetch, cursor, pages[..n - 1])
     && at.Some? && fetch(n, at).Some? && pages[n - 1] == fetch(n, at).value.events)
  }

  lemma FetchedAppend(fetch: (nat, Option<string>) -> Option<TurnPage>, cursor: Option<string>,
                      pages: seq<seq<SessionEvent>>, page: TurnPage)
    requires FetchedInTurn(fetch, cursor, pages)
    requires CursorAfter(fetch, cursor, |pages|).Some?
    requires fetch(|pages| + 1, CursorAfter(fetch, cursor, |pages|)) == Some(page)
    ensures FetchedInTurn(fetch, cursor, pages + [page.events])
    ensures CursorAfter(fetch, cursor, |pages| + 1) == page.nextCursor
  {
    assert (pages + [page.events])[..|pages|] == pages;
  }

  lemma MergePagesAppend(itemOrder: ItemOrder, events: seq<SessionEvent>, pages: seq<seq<SessionEvent>>,
                         page: seq<SessionEvent>)
    ensures MergePages(itemOrder, events, pages + [page]) == Merge(itemOrder, MergePages(itemOrder, events, pages), page)
  {
    assert (pages + [page])[..|pages + [page]| - 1] == pages;
  }

  /** The adapter makes no progress: the last page added nothing and named itself as the next one. */
  ghost predicate Stuck(itemOrder: ItemOrder, fetch: (nat, Option<string>) -> Option<TurnPage>,
                        start: seq<SessionEvent>, cursor: Option<string>, pages: seq<seq<SessionEvent>>) {
    var n := |pages|;
    && n > 0
    && CursorAfter(fetch, cursor, n) == CursorAfter(fetch, cursor, n - 1)
    && |MergePages(itemOrder, start, pages)| == |MergePages(itemOrder, start, pages[..n - 1])|
  }

  /** The page in front of `before` is full, or there is a reason why it cannot be. */
  ghost predicate FullOrExcused(itemOrder: ItemOrder, fetch: (nat, Option<string>) -> Option<TurnPage>,
                                start: seq<SessionEvent>, cursor: Option<string>, pages: seq<seq<SessionEvent>>,
                                before: string, limit: nat) {
    var events := MergePages(itemOrder, start, pages);
    var index := IndexWhere(HasId(before), events);
    || index >= limit
    || index == |events|
    || CursorAfter(fetch, cursor, |pages|) == None
    || |pages| == MAX_HISTORY_PAGES
    || Stuck(itemOrder, fetch, start, cursor, pages)
  }

  /** The client's page is neither full nor excused, so another page is asked for. */
  ghost predicate OlderDue(itemOrder: ItemOrder, fetch: (nat, Option<string>) -> Option<TurnPage>,
                           start: seq<SessionEvent>, cursor: Option<string>, pages: seq<seq<SessionEvent>>,
                           before: string, limit: nat) {
    !FullOrExcused(itemOrder, fetch, start, cursor, pages, before, limit)
  }

  /** Another page was due, and the adapter did not deliver it. */
  ghost predicate OlderFailed(itemOrder: ItemOrder, fetch: (nat, Option<string>) -> Option<TurnPage>,
                              start: seq<SessionEvent>, cursor: Option<string>, pages: seq<seq<SessionEvent>>,
                              before: string, limit: nat) {
    && OlderDue(itemOrder, fetch, start, cursor, pages, before, limit)
    && fetch(|pages| + 1, CursorAfter(fetch, cursor, |pages|)).None?
  }

  /** No page was fetched that was not due. */
  ghost predicate AllDue(itemOrder: ItemOrder, fetch: (nat, Option<string>) -> Option<TurnPage>,
                         start: seq<SessionEvent>, cursor: Option<string>, pages: seq<seq<SessionEvent>>,
                         before: string, limit: nat) {
    forall n :: 0 <= n < |pages| ==> OlderDue(itemOrder, fetch, start, cursor, pages[..n], before, limit)
  }

  lemma AllDueAppend(itemOrder: ItemOrder, fetch: (nat, Option<string>) -> Option<TurnPage>,
                     start: seq<SessionEvent>, cursor: Option<string>, pages: seq<seq<SessionEvent>>,
                     page: seq<SessionEvent>, before: string, limit: nat)
    requires AllDue(itemOrder, fetch, start, cursor, pages, before, limit)
    requires OlderDue(itemOrder, fetch, start, cursor, pages, before, limit)
    ensures AllDue(itemOrder, fetch, start, cursor, pages + [page], before, limit)
  {
    forall n | 0 <= n <= |pages|
      ensures OlderDue(itemOrder, fetch, start, cursor, (pages + [page])[..n], before, limit)
    {
      assert (pages + [page])[..n] == pages[..n];
      assert pages[..|pages|] == pages;
    }
  }

  /** One more page: everything the loop keeps, and when it is the last one. */
  lemma NextPage(itemOrder: ItemOrder, fetch: (nat, Option<string>) -> Option<TurnPage>,
                 start: seq<SessionEvent>, cursor: Option<string>, pages: seq<seq<SessionEvent>>, page: TurnPage,
                 before: string, limit: nat)
    requires FetchedInTurn(fetch, cursor, pages) && AllDue(itemOrder, fetch, start, cursor, pages, before, limit)
    requires OlderDue(itemOrder, fetch, start, cursor, pages, before, limit)
    requires fetch(|pages| + 1, CursorAfter(fetch, cursor, |pages|)) == Some(page)
    ensures var more, was, grown := pages + [page.events], MergePages(itemOrder, start, pages),
                             MergePages(itemOrder, start, pages + [page.events]);
            && grown == Merge(itemOrder, was, page.events)
            && FetchedInTurn(fetch, cursor, more) && CursorAfter(fetch, cursor, |more|) == page.nextCursor
            && AllDue(itemOrder, fetch, start, cursor, more, before, limit)
            && (Stuck(itemOrder, fetch, start, cursor, more) <==>
                  page.nextCursor == CursorAfter(fetch, cursor, |pages|) && |grown| == |was|)
  {
    MergePagesAppend(itemOrder, start, pages, page.events);
    FetchedAppend(fetch, cursor, pages, page);
    AllDueAppend(itemOrder, fetch, start, cursor, pages, page.events, before, limit);
    assert (pages + [page.events])[..|pages|] == pages;
  }

  /** One of the first `limit` events has this id. */
  ghost predicate ListedWithin(events: seq<SessionEvent>, id: string, limit: nat) {
    exists i :: 0 <= i < |events| && i < limit && events[i].id == id
  }

  /** What is due is literally this: fewer than four pages so far, a cursor to go on with, the client's cursor
      found with fewer than `limit` events in front of it, and progress. */
  lemma DueSpelledOut(itemOrder: ItemOrder, fetch: (nat, Option<string>) -> Option<TurnPage>,
                      start: seq<SessionEvent>, cursor: Option<string>, pages: seq<seq<SessionEvent>>,
                      before: string, limit: nat)
    requires |pages| <= 4
    ensures OlderDue(itemOrder, fetch, start, cursor, pages, before, limit) <==>
              && |pages| < 4 && CursorAfter(fetch, cursor, |pages|).Some?
              && ListedWithin(MergePages(itemOrder, start, pages), before, limit)
              && !Stuck(itemOrder, fetch, start, cursor, pages)
  {
    FoundInFront(MergePages(itemOrder, start, pages), before, limit);
  }

  lemma FoundInFront(events: seq<SessionEvent>, id: string, limit: nat)
    ensures var index := IndexWhere(HasId(id), events);
            index < |events| && index < limit <==> ListedWithin(events, id, limit)
  {
    var index := IndexWhere(HasId(id), events);
    if index < |events| {
      assert HasId(id)(events[index]);
    }
    forall i | 0 <= i < |events| && events[i].id == id
      ensures index <= i
    {
      assert HasId(id)(events[i]);
    }
  }

  lemma MergeStaysCanonical(itemOrder: ItemOrder, events: seq<SessionEvent>, incoming: seq<SessionEvent>)
    requires UniqueIds(events)
    ensures UniqueIds(Merge(itemOrder, events, incoming))
    ensures Sorted(Comparator(itemOrder), Merge(itemOrder, events, incoming))
  {
    HoldsContentOf(events);
    MergeIsCanonical(itemOrder, events, ContentOf(events), incoming);
  }

  lemma {:induction false} PagesStayCanonical(itemOrder: ItemOrder, events: seq<SessionEvent>, pages: seq<seq<SessionEvent>>)
    requires UniqueIds(events) && Sorted(Comparator(itemOrder), events)
    ensures UniqueIds(MergePages(itemOrder, events, pages))
    ensures Sorted(Comparator(itemOrder), MergePages(itemOrder, events, pages))
    decreases |pages|
  {
    if pages != [] {
      PagesStayCanonical(itemOrder, events, pages[..|pages| - 1]);
      MergeStaysCanonical(itemOrder, MergePages(itemOrder, events, pages[..|pages| - 1]), pages[|pages| - 1]);
    }
  }

  lemma ReplaceStaysCanonical(itemOrder: ItemOrder, events: seq<SessionEvent>, incoming: seq<SessionEvent>,
                              turns: seq<string>, active: seq<string>)
    requires UniqueIds(events)
    ensures UniqueIds(ReplaceTurns(itemOrder, events, incoming, turns, active))
    ensures Sorted(Comparator(itemOrder), ReplaceTurns(itemOrder, events, incoming, turns, active))
  {
    HoldsContentOf(events);
    ReplaceIsCanonical(itemOrder, events, ContentOf(events), incoming, turns, active);
  }

  // --------------------------------------------------------------- the class

  class AdapterEventCache {
    var events: seq<SessionEvent>
    var nextCursor: Option<string>
    var loadedOlder: bool

    constructor ()
      ensures events == [] && nextCursor == None && !loadedOlder
    {
      events, nextCursor, loadedOlder := [], None, false;
    }

    method MergeEvents(itemOrder: ItemOrder, incoming: seq<SessionEvent>) returns (added: nat)
      modifies this`events
      ensures events == Merge(itemOrder, old(events), incoming)
      ensures |events| == |old(events)| + added
    {
      added := 0;
      for i := 0 to |incoming|
        invariant UpsertAll(events, incoming[i..]) == UpsertAll(old(events), incoming)
        invariant |events| == |old(events)| + added
      {
        assert incoming[i..][1..] == incoming[i + 1..];
        var index := IndexWhere(HasId(incoming[i].id), events);
        if index < |events| {
          events := events[index := incoming[i]];
        } else {
          events := events + [incoming[i]];
          added := added + 1;
        }
      }
      events := Sort(Comparator(itemOrder), events);
    }

    method ReplaceTurnEvents(itemOrder: ItemOrder, incoming: seq<SessionEvent>, turnIds: seq<string>,
                             activeTurnIds: seq<string>)
      modifies this`events
      ensures events == ReplaceTurns(itemOrder, old(events), incoming, turnIds, activeTurnIds)
    {
      for i := 0 to |events|
        invariant |events| == |old(events)|
        invariant forall k :: 0 <= k < i ==> events[k] == Rewrite(old(events)[k], incoming, turnIds)
        invariant forall k :: i <= k < |events| ==> events[k] == old(events)[k]
      {
        if IsTool(events[i]) {
          var turn := TurnOf(events[i].id, turnIds);
          if turn.Some? {
            var anchor := Anchor(incoming, turn.value);
            if anchor.Some? {
              events := events[i := events[i].(createdAt := anchor.value)];
            }
          }
        }
      }
      assert events == RewriteAll(old(events), incoming, turnIds);
      events := Filter(Retain(incoming, turnIds, activeTurnIds), events);
      var _ := MergeEvents(itemOrder, incoming);
    }

    method AbsorbPage(itemOrder: ItemOrder, page: TurnPage) returns (added: nat)
      modifies this
      ensures events == Merge(itemOrder, old(events), page.events)
      ensures |events| == |old(events)| + added
      ensures nextCursor == page.nextCursor && loadedOlder
    {
      added := MergeEvents(itemOrder, page.events);
      nextCursor := page.nextCursor;
      loadedOlder := true;
    }

    /** The cache is what `pages`, fetched in turn from `cursor`, make of `start`. */
    ghost predicate Absorbed(itemOrder: ItemOrder, fetch: (nat, Option<string>) -> Option<TurnPage>,
                             start: seq<SessionEvent>, cursor: Option<string>, pages: seq<seq<SessionEvent>>)
      reads this
    {
      && events == MergePages(itemOrder, start, pages)
      && nextCursor == CursorAfter(fetch, cursor, |pages|)
      && FetchedInTurn(fetch, cursor, pages)
    }

    /** One round of the loop: nothing to fetch, a page absorbed, or an adapter error. */
    method FetchOne(itemOrder: ItemOrder, fetch: (nat, Option<string>) -> Option<TurnPage>, round: nat,
                    before: string, limit: nat, ghost start: seq<SessionEvent>, ghost cursor0: Option<string>,
                    ghost pages: seq<seq<SessionEvent>>)
      returns (outcome: FetchOutcome, ghost pages': seq<seq<SessionEvent>>)
      requires Absorbed(itemOrder, fetch, start, cursor0, pages) && round == |pages| < MAX_HISTORY_PAGES
      requires AllDue(itemOrder, fetch, start, cursor0, pages, before, limit)
      requires !Stuck(itemOrder, fetch, start, cursor0, pages)
      modifies this
      ensures Absorbed(itemOrder, fetch, start, cursor0, pages')
      ensures AllDue(itemOrder, fetch, start, cursor0, pages', before, limit)
      ensures |pages'| == round || |pages'| == round + 1
      ensures outcome == More ==> |pages'| == round + 1 && !Stuck(itemOrder, fetch, start, cursor0, pages')
      ensures outcome == Done ==> FullOrExcused(itemOrder, fetch, start, cursor0, pages', before, limit)
      ensures outcome == AdapterError ==> OlderFailed(itemOrder, fetch, start, cursor0, pages', before, limit)
      ensures loadedOlder == (old(loadedOlder) || |pages'| > round)
    {
      pages' := pages;
      var cursorIndex := IndexWhere(HasId(before), events);
      if cursorIndex == |events| || cursorIndex >= limit || nextCursor.None? {
        return Done, pages;
      }
      var cursor := nextCursor;
      assert OlderDue(itemOrder, fetch, start, cursor0, pages, before, limit);
      var fetched := fetch(round + 1, cursor);
      if fetched.None? {
        return AdapterError, pages;
      }
      NextPage(itemOrder, fetch, start, cursor0, pages, fetched.value, before, limit);
      pages' := pages + [fetched.value.events];
      var added := AbsorbPage(itemOrder, fetched.value);
      outcome := if added == 0 && nextCursor == cursor then Done else More;
    }

    /** It fails exactly when a page that was due did not come. */
    method FetchOlder(itemOrder: ItemOrder, fetch: (nat, Option<string>) -> Option<TurnPage>,
                      before: string, limit: nat)
      returns (ok: bool, ghost pages: seq<seq<SessionEvent>>)
      modifies this
      ensures |pages| <= MAX_HISTORY_PAGES
      ensures Absorbed(itemOrder, fetch, old(events), old(nextCursor), pages)
      ensures AllDue(itemOrder, fetch, old(events), old(nextCursor), pages, before, limit)
      ensures ok ==> FullOrExcused(itemOrder, fetch, old(events), old(nextCursor), pages, before, limit)
      ensures !ok ==> OlderFailed(itemOrder, fetch, old(events), old(nextCursor), pages, before, limit)
      ensures loadedOlder == (old(loadedOlder) || pages != [])
    {
      pages := [];
      for round := 0 to MAX_HISTORY_PAGES
        invariant |pages| == round
        invariant Absorbed(itemOrder, fetch, old(events), old(nextCursor), pages)
        invariant AllDue(itemOrder, fetch, old(events), old(nextCursor), pages, before, limit)
        invariant !Stuck(itemOrder, fetch, old(events), old(nextCursor), pages)
        invariant loadedOlder == (old(loadedOlder) || pages != [])
      {
        var outcome;
        outcome, pages := FetchOne(itemOrder, fetch, round, before, limit, old(events), old(nextCursor), pages);
        if outcome != More {
          return outcome == Done, pages;
        }
      }
      ok := true;
    }

    /** Fetches the newest turns, then older pages until the page before the cursor is full, the history
        ends, or the adapter stops making progress; at most four older pages, all under one lock. The
        vector then replaces the event history of the thread. `fetch(k, cursor)` is what the adapter
        answers to its `k`-th request; a bad limit is noticed after the first answer. */
    method EventsForQuery(itemOrder: ItemOrder, fetch: (nat, Option<string>) -> Option<TurnPage>,
                          query: EventPaging.Query, history: EventPaging.EventHistory)
      returns (r: QueryResult, ghost pages: seq<seq<SessionEvent>>)
      requires UniqueIds(events)
      modifies this, history
      ensures fetch(0, None).None? ==> r == AdapterFailed && unchanged(this)
      ensures fetch(0, None).Some? ==> (r == Refused <==> EventPaging.PageLimit(query.limit).None?)
      ensures r == Refused ==> unchanged(this)
      ensures fetch(0, None).Some? && r != Refused ==>
                var first := fetch(0, None).value;
                var start := ReplaceTurns(itemOrder, old(events), first.events, first.turnIds, first.activeTurnIds);
                var cursor := if old(loadedOlder) then old(nextCursor) else first.nextCursor;
                var limit := EventPaging.PageLimit(query.limit).value;
                && UniqueIds(events) && Sorted(Comparator(itemOrder), events)
                && |pages| <= (if query.before.Some? then MAX_HISTORY_PAGES else 0)
                && Absorbed(itemOrder, fetch, start, cursor, pages)
                && loadedOlder == (old(loadedOlder) || pages != [])
                && (query.before.Some? ==> AllDue(itemOrder, fetch, start, cursor, pages, query.before.value, limit))
                && (r.Answered? && query.before.Some?
                    ==> FullOrExcused(itemOrder, fetch, start, cursor, pages, query.before.value, limit))
                && (r == AdapterFailed <==>
                      query.before.Some? && OlderFailed(itemOrder, fetch, start, cursor, pages, query.before.value, limit))
      ensures if r.Answered? then r == Answered(events, nextCursor.Some?)
                                  && history.events == LastN(events, EventPaging.HISTORY_LIMIT)
              else history.events == old(history.events)
    {
      pages := [];
      var firstPage := fetch(0, None);
      if firstPage.None? {
        return AdapterFailed, pages;
      }
      var first := firstPage.value;
      var limit := EventPaging.PageLimit(query.limit);
      if limit.None? {
        return Refused, pages;
      }
      ReplaceStaysCanonical(itemOrder, events, first.events, first.turnIds, first.activeTurnIds);
      ReplaceTurnEvents(itemOrder, first.events, first.turnIds, first.activeTurnIds);
      if !loadedOlder {
        nextCursor := first.nextCursor;
      }
      if query.before.Some? {
        var ok;
        ghost var start := events;
        ok, pages := FetchOlder(itemOrder, fetch, query.before.value, limit.value);
        PagesStayCanonical(itemOrder, start, pages);
        if !ok {
          return AdapterFailed, pages;
        }
      }
      history.Replace(events);
      r := Answered(events, nextCursor.Some?);
    }
  }
}
