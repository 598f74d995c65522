/** How the web client partitions the events of a thread into display groups. */
module TurnGroups {
  import opened Sequences
  import opened SessionEvents
  import opened Text
  import opened Wrappers
  import opened ClientEvents

  /** The members of a payload that may name its turn. */
  datatype TurnFields = TurnFields(turnId: Field, turn_id: Field, rawTurnId: Field, rawTurn_id: Field)

  /** `turnFields` and `attachments` read the payload members outside the model; the regular expression
      that finds a turn in an event id is a parameter too. */
  datatype DisplayEnv = DisplayEnv(
    trim: string -> string,
    turnFields: string -> TurnFields,
    attachments: string -> nat,
    turnInId: string -> Option<string>)

  datatype Group =
    | EventGroup(key: string, event: Event)
    | TurnGroup(key: string, scope: string, events: seq<Event>)

  function StringValue(f: Field): Option<string> {
    if f.Str? && f.text != "" then Some(f.text) else None
  }

  function FirstString(a: Field, b: Field, c: Field, d: Field): Option<string> {
    if StringValue(a).Some? then StringValue(a)
    else if StringValue(b).Some? then StringValue(b)
    else if StringValue(c).Some? then StringValue(c)
    else StringValue(d)
  }

  function ExplicitTurnId(env: DisplayEnv, payload: Payload): Option<string> {
    if payload.NotObject? then None
    else
      var f := env.turnFields(payload.rest);
      FirstString(f.turnId, f.turn_id, f.rawTurnId, f.rawTurn_id)
  }

  function IdPrefix(id: string): Option<string> {
    var separator := IndexWhere((c: char) => c == ':', id);
    if 0 < separator < |id| then Some(id[..separator]) else None
  }

  function EventTurnScope(env: DisplayEnv, e: Event): Option<string> {
    var turn := ExplicitTurnId(env, e.payload);
    var inId := env.turnInId(e.id);
    if turn.Some? then turn
    else if inId.Some? && inId.value != "" then inId
    else IdPrefix(e.id)
  }

  predicate HasRole(payload: Payload, role: string) {
    payload.Object? && payload.role == Str(role)
  }

  predicate IsAssistantTurnEvent(e: Event) {
    match e.eventType
    case Message => HasRole(e.payload, "assistant")
    case MessageDelta => HasRole(e.payload, "assistant")
    case ReasoningSummary => true
    case ReasoningSummaryDelta => true
    case Plan => true
    case PlanDelta => true
    case ToolCall => true
    case ToolResult => true
    case _ => false
  }

  predicate IsEmptyDisplayEvent(env: DisplayEnv, e: Event) {
    var shown := if e.payload.Object? && e.payload.text.Str? then e.payload.text.text else "";
    var textIsEmpty := env.trim(shown) == "";
    match e.eventType
    case ToolResult => textIsEmpty
    case ReasoningSummary => textIsEmpty
    case ReasoningSummaryDelta => textIsEmpty
    case Plan => textIsEmpty
    case PlanDelta => textIsEmpty
    case Message => HasRole(e.payload, "assistant") && textIsEmpty && env.attachments(e.payload.rest) == 0
    case MessageDelta => HasRole(e.payload, "assistant") && textIsEmpty && env.attachments(e.payload.rest) == 0
    case _ => false
  }

  predicate IsVisible(env: DisplayEnv, e: Event) {
    e.eventType != StatusChanged && !IsEmptyDisplayEvent(env, e)
  }

  function Visible(env: DisplayEnv): Event -> bool {
    (e: Event) => IsVisible(env, e)
  }

  /** The turn an event is grouped under, if any. */
  function ScopeOf(env: DisplayEnv, e: Event): Option<string> {
    if IsAssistantTurnEvent(e) then EventTurnScope(env, e) else None
  }

  // ------------------------------------------ the same, read off the event

  /** The text of the payload, or nothing, is blank. */
  predicate Blank(env: DisplayEnv, payload: Payload) {
    match payload
    case Object(_, Str(text), _, _, _, _) => env.trim(text) == ""
    case _ => env.trim("") == ""
  }

  predicate FromAssistant(payload: Payload) {
    match payload
    case Object(Str(role), _, _, _, _, _) => role == "assistant"
    case _ => false
  }

  /** Hidden are status changes, blank tool results, summaries and plans, and blank answers without attachments. */
  predicate Hidden(env: DisplayEnv, e: Event) {
    || e.eventType == StatusChanged
    || (e.eventType in {ToolResult, ReasoningSummary, ReasoningSummaryDelta, Plan, PlanDelta} && Blank(env, e.payload))
    || (e.eventType in {Message, MessageDelta} && FromAssistant(e.payload) && Blank(env, e.payload)
        && env.attachments(e.payload.rest) == 0)
  }

  /** The assistant's part of a turn: its answers, summaries, plans and tool events. */
  predicate PartOfTurn(e: Event) {
    || e.eventType in {ReasoningSummary, ReasoningSummaryDelta, Plan, PlanDelta, ToolCall, ToolResult}
    || (e.eventType in {Message, MessageDelta} && FromAssistant(e.payload))
  }

  function TurnNames(env: DisplayEnv, payload: Payload): seq<Field> {
    match payload
    case NotObject(_) => []
    case Object(_, _, _, _, _, rest) =>
      var f := env.turnFields(rest);
      [f.turnId, f.turn_id, f.rawTurnId, f.rawTurn_id]
  }

  predicate IsName(f: Field) {
    f.Str? && f.text != ""
  }

  /** The payload names the turn in the first of its four members that hold a name. */
  ghost predicate NamedByPayload(env: DisplayEnv, payload: Payload, scope: string) {
    var names := TurnNames(env, payload);
    scope != "" && exists k :: 0 <= k < |names| && names[k] == Str(scope) && forall j :: 0 <= j < k ==> !IsName(names[j])
  }

  ghost predicate Unnamed(env: DisplayEnv, payload: Payload) {
    var names := TurnNames(env, payload);
    forall k :: 0 <= k < |names| ==> !IsName(names[k])
  }

  /** The id is the scope, a colon, and more, and the scope has no colon. */
  ghost predicate Prefixes(scope: string, id: string) {
    scope != "" && ':' !in scope && exists rest :: id == scope + ":" + rest
  }

  /** The event belongs to the turn: by its payload, else by the pattern in its id, else by the head of its id. */
  ghost predicate InTurn(env: DisplayEnv, e: Event, scope: string) {
    && PartOfTurn(e)
    && (|| NamedByPayload(env, e.payload, scope)
        || (Unnamed(env, e.payload) && scope != "" && env.turnInId(e.id) == Some(scope))
        || (Unnamed(env, e.payload) && (env.turnInId(e.id) == None || env.turnInId(e.id) == Some(""))
            && Prefixes(scope, e.id)))
  }

  lemma VisibleSpelledOut(env: DisplayEnv, e: Event)
    ensures IsVisible(env, e) <==> !Hidden(env, e)
  {
  }

  lemma PartSpelledOut(e: Event)
    ensures IsAssistantTurnEvent(e) <==> PartOfTurn(e)
  {
  }

  lemma PrefixSpelledOut(id: string, scope: string)
    ensures IdPrefix(id) == Some(scope) <==> Prefixes(scope, id)
  {
    var colon := (c: char) => c == ':';
    var separator := IndexWhere(colon, id);
    if 0 < separator < |id| {
      assert colon(id[separator]);
      assert id == id[..separator] + ":" + id[separator + 1..];
      assert forall k :: 0 <= k < separator ==> !colon(id[k]);
    }
    if Prefixes(scope, id) {
      var rest :| id == scope + ":" + rest;
      assert forall k :: 0 <= k < |scope| ==> id[k] == scope[k];
      assert id[|scope|] == ':' && colon(id[|scope|]);
      assert separator == |scope|;
      assert id[..|scope|] == scope;
    }
  }

  lemma PayloadSpelledOut(env: DisplayEnv, payload: Payload, scope: string)
    ensures ExplicitTurnId(env, payload) == Some(scope) <==> NamedByPayload(env, payload, scope)
    ensures ExplicitTurnId(env, payload) == None <==> Unnamed(env, payload)
  {
    if payload.Object? {
      var names := TurnNames(env, payload);
      assert forall f :: StringValue(f).Some? <==> IsName(f);
      assert names[0] in names && names[1] in names && names[2] in names && names[3] in names;
    }
  }

  lemma ScopeSpelledOut(env: DisplayEnv, e: Event, scope: string)
    ensures ScopeOf(env, e) == Some(scope) <==> InTurn(env, e, scope)
  {
    PartSpelledOut(e);
    PayloadSpelledOut(env, e.payload, scope);
    PrefixSpelledOut(e.id, scope);
    var explicit := ExplicitTurnId(env, e.payload);
    if explicit.Some? {
      PayloadSpelledOut(env, e.payload, explicit.value);
    }
  }

  // ------------------------------------------------------- what a grouping is

  function EventsOf(g: Group): seq<Event> {
    if g.EventGroup? then [g.event] else g.events
  }

  function AllEvents(groups: seq<Group>): seq<Event> {
    if groups == [] then [] else AllEvents(groups[..|groups| - 1]) + EventsOf(groups[|groups| - 1])
  }

  predicate OfScope(g: Group, scope: string) {
    g.TurnGroup? && g.scope == scope
  }

  /** How many groups of this turn there are. */
  function Occurrences(scope: string, groups: seq<Group>): nat {
    if groups == [] then 0
    else Occurrences(scope, groups[..|groups| - 1]) + if OfScope(groups[|groups| - 1], scope) then 1 else 0
  }

  const EVENT_PREFIX := "event:"
  const TURN_PREFIX := "assistant-turn:"

  function TurnKey(scope: string, occurrence: nat): string {
    TURN_PREFIX + (scope + [':'] + Decimal(occurrence))
  }

  predicate IsGroupOf(env: DisplayEnv, g: Group) {
    match g
    case EventGroup(_, e) => ScopeOf(env, e) == None
    case TurnGroup(_, scope, events) => events != [] && forall e :: e in events ==> ScopeOf(env, e) == Some(scope)
  }

  function KeyAfter(earlier: seq<Group>, g: Group): string {
    match g
    case EventGroup(_, e) => EVENT_PREFIX + e.id
    case TurnGroup(_, scope, _) => TurnKey(scope, Occurrences(scope, earlier))
  }

  /** The group may follow `earlier`: a turn group never continues the one before it. */
  predicate Follows(earlier: seq<Group>, g: Group) {
    g.TurnGroup? && earlier != [] ==> !OfScope(earlier[|earlier| - 1], g.scope)
  }

  /** Homogeneous, maximal and correctly keyed groups. */
  predicate WellSegmented(env: DisplayEnv, groups: seq<Group>) {
    groups == [] ||
    var earlier, g := groups[..|groups| - 1], groups[|groups| - 1];
    WellSegmented(env, earlier) && IsGroupOf(env, g) && Follows(earlier, g) && g.key == KeyAfter(earlier, g)
  }

  lemma Snoc(env: DisplayEnv, earlier: seq<Group>, g: Group)
    ensures AllEvents(earlier + [g]) == AllEvents(earlier) + EventsOf(g)
    ensures WellSegmented(env, earlier + [g]) <==>
            WellSegmented(env, earlier) && IsGroupOf(env, g) && Follows(earlier, g) && g.key == KeyAfter(earlier, g)
    ensures forall scope :: Occurrences(scope, earlier + [g])
                         == Occurrences(scope, earlier) + if OfScope(g, scope) then 1 else 0
  {
    assert (earlier + [g])[..|earlier|] == earlier;
  }

  /** The state of the grouping loop: `counts` knows how often each turn has been opened. */
  ghost predicate Grouping(env: DisplayEnv, groups: seq<Group>, counts: map<string, nat>, shown: seq<Event>) {
    && WellSegmented(env, groups)
    && AllEvents(groups) == shown
    && forall scope :: Opened(counts, scope) == Occurrences(scope, groups)
  }

  function Opened(counts: map<string, nat>, scope: string): nat {
    if scope in counts then counts[scope] else 0
  }

  lemma AddSingle(env: DisplayEnv, groups: seq<Group>, counts: map<string, nat>, shown: seq<Event>, e: Event)
    requires Grouping(env, groups, counts, shown) && ScopeOf(env, e).None?
    ensures Grouping(env, groups + [EventGroup(EVENT_PREFIX + e.id, e)], counts, shown + [e])
  {
    Snoc(env, groups, EventGroup(EVENT_PREFIX + e.id, e));
  }

  lemma OpenTurn(env: DisplayEnv, groups: seq<Group>, counts: map<string, nat>, shown: seq<Event>, e: Event, scope: string)
    requires Grouping(env, groups, counts, shown) && ScopeOf(env, e) == Some(scope)
    requires groups == [] || !OfScope(groups[|groups| - 1], scope)
    ensures var n := Opened(counts, scope);
            Grouping(env, groups + [TurnGroup(TurnKey(scope, n), scope, [e])], counts[scope := n + 1], shown + [e])
  {
    var n := Opened(counts, scope);
    var g := TurnGroup(TurnKey(scope, n), scope, [e]);
    Snoc(env, groups, g);
    forall s: string
      ensures Opened(counts[scope := n + 1], s) == Occurrences(s, groups + [g])
    {
      assert OfScope(g, s) <==> s == scope;
    }
  }

  /** An event of the turn that the last group shows joins that group. */
  lemma JoinTurn(env: DisplayEnv, earlier: seq<Group>, g: Group, counts: map<string, nat>, shown: seq<Event>, e: Event)
    requires g.TurnGroup? && ScopeOf(env, e) == Some(g.scope)
    requires Grouping(env, earlier + [g], counts, shown)
    ensures Grouping(env, earlier + [g.(events := g.events + [e])], counts, shown + [e])
  {
    Snoc(env, earlier, g);
    Snoc(env, earlier, g.(events := g.events + [e]));
    AppendAssociates(AllEvents(earlier), g.events, [e]);
  }

  method GroupSessionEventsForDisplay(env: DisplayEnv, events: seq<Event>) returns (groups: seq<Group>)
    ensures WellSegmented(env, groups)
    ensures AllEvents(groups) == Filter(Visible(env), events)
    ensures forall e :: e in AllEvents(groups) <==> e in events && !Hidden(env, e)
    ensures forall g :: g in groups ==> ShowsItsTurn(env, g)
  {
    groups := [];
    var turnOccurrences: map<string, nat> := map[];
    ghost var shown: seq<Event> := [];
    for i := 0 to |events|
      invariant shown == Filter(Visible(env), events[..i])
      invariant Grouping(env, groups, turnOccurrences, shown)
    {
      var event := events[i];
      FilterLast(Visible(env), events, i);
      if event.eventType == StatusChanged || IsEmptyDisplayEvent(env, event) {
        continue;
      }
      groups, turnOccurrences := Place(env, groups, turnOccurrences, shown, event);
      shown := shown + [event];
    }
    assert events[..|events|] == events;
    ShownAreNotHidden(env, events);
    forall g | g in groups
      ensures ShowsItsTurn(env, g)
    {
      GroupIsOfItsTurn(env, groups, g);
    }
  }

  lemma ShownAreNotHidden(env: DisplayEnv, events: seq<Event>)
    ensures forall e :: e in Filter(Visible(env), events) <==> e in events && !Hidden(env, e)
  {
    FilterMembers(Visible(env), events);
    forall e: Event
      ensures IsVisible(env, e) <==> !Hidden(env, e)
    {
      VisibleSpelledOut(env, e);
    }
  }

  /** A turn group shows events of its turn, and an event shown alone belongs to no turn. */
  ghost predicate ShowsItsTurn(env: DisplayEnv, g: Group) {
    match g
    case EventGroup(_, e) => forall scope :: !InTurn(env, e, scope)
    case TurnGroup(_, scope, events) => events != [] && forall e :: e in events ==> InTurn(env, e, scope)
  }

  lemma GroupIsOfItsTurn(env: DisplayEnv, groups: seq<Group>, g: Group)
    requires WellSegmented(env, groups) && g in groups
    ensures ShowsItsTurn(env, g)
  {
    var k :| 0 <= k < |groups| && groups[k] == g;
    GroupAt(env, groups, k);
    match g
    case EventGroup(_, e) =>
      forall scope ensures !InTurn(env, e, scope) {
        ScopeSpelledOut(env, e, scope);
      }
    case TurnGroup(_, scope, events) =>
      forall e | e in events ensures InTurn(env, e, scope) {
        ScopeSpelledOut(env, e, scope);
      }
  }

  /** The body of the loop for a visible event. */
  method Place(env: DisplayEnv, before: seq<Group>, counts: map<string, nat>, ghost shown: seq<Event>, event: Event)
    returns (groups: seq<Group>, turnOccurrences: map<string, nat>)
    requires Grouping(env, before, counts, shown)
    ensures Grouping(env, groups, turnOccurrences, shown + [event])
  {
    groups, turnOccurrences := before, counts;
    var turnScope := ScopeOf(env, event);
    if turnScope.None? {
      AddSingle(env, groups, turnOccurrences, shown, event);
      groups := groups + [EventGroup(EVENT_PREFIX + event.id, event)];
      return;
    }
    var scope := turnScope.value;
    if groups != [] && OfScope(groups[|groups| - 1], scope) {
      var earlier, last := groups[..|groups| - 1], groups[|groups| - 1];
      assert groups == earlier + [last];
      JoinTurn(env, earlier, last, turnOccurrences, shown, event);
      groups := earlier + [last.(events := last.events + [event])];
      return;
    }
    var occurrence := Opened(turnOccurrences, scope);
    OpenTurn(env, groups, turnOccurrences, shown, event, scope);
    turnOccurrences := turnOccurrences[scope := occurrence + 1];
    groups := groups + [TurnGroup(TurnKey(scope, occurrence), scope, [event])];
  }

  lemma FilterLast<T(!new)>(p: T -> bool, s: seq<T>, i: nat)
    requires i < |s|
    ensures Filter(p, s[..i + 1]) == if p(s[i]) then Filter(p, s[..i]) + [s[i]] else Filter(p, s[..i])
  {
    assert s[..i + 1] == s[..i] + [s[i]];
    FilterAppend(p, s[..i], [s[i]]);
    FilterCons(p, s[i], []);
    assert [s[i]] + [] == [s[i]];
  }

  // ------------------------------------------------------------- distinct keys

  lemma TurnKeysDiffer(a: string, m: nat, b: string, n: nat)
    requires TurnKey(a, m) == TurnKey(b, n)
    ensures a == b && m == n
  {
    var x, y := a + [':'] + Decimal(m), b + [':'] + Decimal(n);
    assert x == TurnKey(a, m)[|TURN_PREFIX|..] && y == TurnKey(b, n)[|TURN_PREFIX|..];
    assert ':' !in Decimal(m) && ':' !in Decimal(n);
    SplitAtLast(a, Decimal(m), b, Decimal(n), ':');
    DecimalInjective(m, n);
  }

  lemma {:induction false} OccurrencesBefore(groups: seq<Group>, k: nat, scope: string)
    requires k < |groups| && OfScope(groups[k], scope)
    ensures Occurrences(scope, groups[..k]) < Occurrences(scope, groups)
  {
    var earlier := groups[..|groups| - 1];
    if k < |groups| - 1 {
      assert earlier[..k] == groups[..k];
      OccurrencesBefore(earlier, k, scope);
    }
  }

  lemma {:induction false} GroupAt(env: DisplayEnv, groups: seq<Group>, k: nat)
    requires WellSegmented(env, groups) && k < |groups|
    ensures IsGroupOf(env, groups[k]) && Follows(groups[..k], groups[k])
    ensures groups[k].key == KeyAfter(groups[..k], groups[k])
  {
    if k < |groups| - 1 {
      GroupAt(env, groups[..|groups| - 1], k);
      assert groups[..|groups| - 1][..k] == groups[..k];
    }
  }

  /** How many events the first `k` groups show. */
  function ShownBy(groups: seq<Group>, k: nat): nat
    requires k <= |groups|
  {
    |AllEvents(groups[..k])|
  }

  lemma {:induction false} ShownAt(groups: seq<Group>, k: nat) returns (p: nat)
    requires k < |groups| && groups[k].EventGroup?
    ensures p < |AllEvents(groups)| && AllEvents(groups)[p] == groups[k].event
    ensures ShownBy(groups, k) <= p < ShownBy(groups, k + 1)
  {
    var earlier := groups[..|groups| - 1];
    if k < |groups| - 1 {
      p := ShownAt(earlier, k);
      assert earlier[..k] == groups[..k] && earlier[..k + 1] == groups[..k + 1];
    } else {
      p := |AllEvents(earlier)|;
      assert groups[..k + 1] == groups && groups[..k] == earlier;
    }
  }

  lemma {:induction false} ShownGrows(groups: seq<Group>, j: nat, k: nat)
    requires j <= k <= |groups|
    ensures ShownBy(groups, j) <= ShownBy(groups, k)
  {
    if j < k {
      ShownGrows(groups, j, k - 1);
      assert groups[..k][..k - 1] == groups[..k - 1];
    }
  }

  /** Where two standalone events stand among all events shown. */
  lemma SinglesOrdered(groups: seq<Group>, i: nat, j: nat) returns (p: nat, q: nat)
    requires i < j < |groups| && groups[i].EventGroup? && groups[j].EventGroup?
    ensures p < q < |AllEvents(groups)|
    ensures AllEvents(groups)[p] == groups[i].event && AllEvents(groups)[q] == groups[j].event
  {
    p := ShownAt(groups, i);
    q := ShownAt(groups, j);
    ShownGrows(groups, i + 1, j);
    var between := ShownBy(groups, i + 1);
    assert p < between <= q;
  }

  lemma SinglesDiffer(groups: seq<Group>, i: nat, j: nat)
    requires UniqueEventIds(AllEvents(groups)) && i < j < |groups|
    requires groups[i].EventGroup? && groups[j].EventGroup?
    ensures groups[i].event.id != groups[j].event.id
  {
    var p, q := SinglesOrdered(groups, i, j);
    IdsDifferAt(AllEvents(groups), p, q);
  }

  lemma IdsDifferAt(events: seq<Event>, p: nat, q: nat)
    requires UniqueEventIds(events) && p < q < |events|
    ensures events[p].id != events[q].id
  {
  }

  lemma KeyHead(earlier: seq<Group>, g: Group)
    ensures KeyAfter(earlier, g) != "" && KeyAfter(earlier, g)[0] == if g.EventGroup? then 'e' else 'a'
  {
  }

  /** When event ids are distinct, so are the keys of the groups. */
  lemma KeysAreDistinct(env: DisplayEnv, groups: seq<Group>, i: nat, j: nat)
    requires WellSegmented(env, groups) && UniqueEventIds(AllEvents(groups)) && i < j < |groups|
    ensures groups[i].key != groups[j].key
  {
    GroupAt(env, groups, i);
    GroupAt(env, groups, j);
    var a, b := groups[i], groups[j];
    if a.TurnGroup? && b.TurnGroup? {
      if a.key == b.key {
        TurnKeysDiffer(a.scope, Occurrences(a.scope, groups[..i]), b.scope, Occurrences(b.scope, groups[..j]));
        assert groups[..j][..i] == groups[..i];
        OccurrencesBefore(groups[..j], i, a.scope);
      }
    } else if a.EventGroup? && b.EventGroup? {
      SinglesDiffer(groups, i, j);
      assert a.key[|EVENT_PREFIX|..] == a.event.id && b.key[|EVENT_PREFIX|..] == b.event.id;
    } else {
      KeyHead(groups[..i], a);
      KeyHead(groups[..j], b);
    }
  }

  /** The earlier groups of the same turn. */
  ghost function EarlierOf(groups: seq<Group>, k: nat, scope: string): set<nat>
    requires k <= |groups|
  {
    set i: nat | i < k && groups[i].TurnGroup? && groups[i].scope == scope
  }

  lemma {:induction false} OccurrencesCount(groups: seq<Group>, k: nat, scope: string)
    requires k <= |groups|
    ensures Occurrences(scope, groups[..k]) == |EarlierOf(groups, k, scope)|
  {
    if k == 0 {
      assert EarlierOf(groups, 0, scope) == {};
    } else {
      OccurrencesCount(groups, k - 1, scope);
      assert groups[..k][..k - 1] == groups[..k - 1];
      assert EarlierOf(groups, k, scope)
          == EarlierOf(groups, k - 1, scope) + if OfScope(groups[k - 1], scope) then {k - 1} else {};
    }
  }

  /** The key of an event shown alone is its id; that of a turn group is its turn with the number of earlier groups
      of that turn. */
  lemma KeysSpelledOut(env: DisplayEnv, groups: seq<Group>, k: nat)
    requires WellSegmented(env, groups) && k < |groups|
    ensures groups[k].key
         == match groups[k]
            case EventGroup(_, e) => "event:" + e.id
            case TurnGroup(_, scope, _) => "assistant-turn:" + (scope + ":" + Decimal(|EarlierOf(groups, k, scope)|))
  {
    GroupAt(env, groups, k);
    if groups[k].TurnGroup? {
      OccurrencesCount(groups, k, groups[k].scope);
    }
  }

  // --------------------------------------------------------------- uniqueness

  function LastScope(groups: seq<Group>): Option<string>
    requires groups != []
  {
    var g := groups[|groups| - 1];
    if g.EventGroup? then None else Some(g.scope)
  }

  lemma LastGroup(env: DisplayEnv, groups: seq<Group>)
    requires WellSegmented(env, groups) && groups != []
    ensures var all, last := AllEvents(groups), EventsOf(groups[|groups| - 1]);
            && 0 < |last| <= |all|
            && AllEvents(groups[..|groups| - 1]) == all[..|all| - |last|]
            && last == all[|all| - |last|..]
            && forall e :: e in last ==> ScopeOf(env, e) == LastScope(groups)
    ensures LastScope(groups).None? ==> |EventsOf(groups[|groups| - 1])| == 1
    ensures LastScope(groups).Some? && |groups| > 1 ==> LastScope(groups[..|groups| - 1]) != LastScope(groups)
  {
  }

  lemma LastScopeHolds(env: DisplayEnv, groups: seq<Group>, k: nat)
    requires WellSegmented(env, groups) && groups != []
    requires |AllEvents(groups)| - |EventsOf(groups[|groups| - 1])| <= k < |AllEvents(groups)|
    ensures ScopeOf(env, AllEvents(groups)[k]) == LastScope(groups)
  {
    LastGroup(env, groups);
    var all, last := AllEvents(groups), EventsOf(groups[|groups| - 1]);
    assert last[k - (|all| - |last|)] == all[k];
  }

  /** A last group over the same events that were shorter would continue the group before it. */
  lemma LastGroupsAlign(env: DisplayEnv, a: seq<Group>, b: seq<Group>)
    requires WellSegmented(env, a) && WellSegmented(env, b) && a != [] && b != []
    requires AllEvents(a) == AllEvents(b)
    ensures |EventsOf(a[|a| - 1])| <= |EventsOf(b[|b| - 1])|
    ensures LastScope(a) == LastScope(b)
  {
    LastGroup(env, a);
    LastGroup(env, b);
    var n, g, h := |AllEvents(a)|, |EventsOf(a[|a| - 1])|, |EventsOf(b[|b| - 1])|;
    LastScopeHolds(env, a, n - 1);
    LastScopeHolds(env, b, n - 1);
    if g > h {
      var before := b[..|b| - 1];
      assert before != [];
      SharedEventSharedScope(env, before, a, n - h - 1);
    }
  }

  lemma SharedEventSharedScope(env: DisplayEnv, before: seq<Group>, a: seq<Group>, k: nat)
    requires WellSegmented(env, before) && WellSegmented(env, a) && before != [] && a != []
    requires k + 1 == |AllEvents(before)|
    requires |AllEvents(a)| - |EventsOf(a[|a| - 1])| <= k < |AllEvents(a)|
    requires AllEvents(before)[k] == AllEvents(a)[k]
    ensures LastScope(before) == LastScope(a)
  {
    NotEmptyGroup(env, before);
    LastScopeHolds(env, before, k);
    LastScopeHolds(env, a, k);
  }

  lemma NotEmptyGroup(env: DisplayEnv, groups: seq<Group>)
    requires WellSegmented(env, groups) && groups != []
    ensures |EventsOf(groups[|groups| - 1])| > 0
  {
  }

  /** The grouping is the only one of its events that is homogeneous, maximal and keyed this way. */
  lemma {:induction false} SegmentationIsUnique(env: DisplayEnv, a: seq<Group>, b: seq<Group>)
    requires WellSegmented(env, a) && WellSegmented(env, b) && AllEvents(a) == AllEvents(b)
    ensures a == b
  {
    if a != [] {
      LastGroup(env, a);
    }
    if b != [] {
      LastGroup(env, b);
    }
    if a != [] && b != [] {
      LastGroupsAlign(env, a, b);
      LastGroupsAlign(env, b, a);
      SegmentationIsUnique(env, a[..|a| - 1], b[..|b| - 1]);
      SameGroup(a[..|a| - 1], a[|a| - 1], b[|b| - 1]);
      SameSnoc(a, b);
    }
  }

  lemma SameGroup(earlier: seq<Group>, g: Group, h: Group)
    requires g.key == KeyAfter(earlier, g) && h.key == KeyAfter(earlier, h)
    requires g.EventGroup? == h.EventGroup? && (g.TurnGroup? && h.TurnGroup? ==> g.scope == h.scope)
    requires EventsOf(g) == EventsOf(h)
    ensures g == h
  {
    assert EventsOf(g) != [] ==> EventsOf(g)[0] == EventsOf(h)[0];
  }

  lemma SameSnoc<T>(a: seq<T>, b: seq<T>)
    requires a != [] && b != []
    requires a[..|a| - 1] == b[..|b| - 1] && a[|a| - 1] == b[|b| - 1]
    ensures a == b
  {
    assert a == a[..|a| - 1] + [a[|a| - 1]] && b == b[..|b| - 1] + [b[|b| - 1]];
  }
}
