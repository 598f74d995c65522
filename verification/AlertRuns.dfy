/**
 Alert detection over whole runs.  One lineage is the sequence of observations of one thread, in the
 order in which the live path and the poll took the store lock; `Records` says which of them count.
 */
module AlertRuns {
  import opened Sequences
  import opened Text
  import opened Wrappers
  import opened AlertDetector

  datatype Observation = Observation(snapshot: Snapshot, ids: seq<string>)
  datatype Lineage = Lineage(state: Option<AlertState>, log: seq<Alert>)

  function Observe(l: Lineage, o: Observation): Lineage {
    var d := Detect(l.state, o.snapshot, o.ids);
    Lineage(Some(d.nextState), l.log + d.events)
  }

  function Run(obs: seq<Observation>): Lineage {
    if obs == [] then Lineage(None, []) else Observe(Run(obs[..|obs| - 1]), obs[|obs| - 1])
  }

  // ------------------------------------------- which observations count

  predicate NotOlder(earlier: seq<Observation>, o: Observation) {
    forall e :: e in earlier ==> e.snapshot.updatedAt <= o.snapshot.updatedAt
  }

  /** The observations at least as recent as everything before them. */
  function Records(obs: seq<Observation>): seq<Observation> {
    if obs == [] then []
    else
      var front, o := obs[..|obs| - 1], obs[|obs| - 1];
      if NotOlder(front, o) then Records(front) + [o] else Records(front)
  }

  function Last(r: seq<Observation>): Observation
    requires r != []
  {
    r[|r| - 1]
  }

  function StatusChanges(r: seq<Observation>): nat {
    if |r| < 2 then 0
    else
      StatusChanges(r[..|r| - 1])
      + if r[|r| - 2].snapshot.status != Last(r).snapshot.status then 1 else 0
  }

  /** What the stored state of a lineage says, in terms of the observations alone. */
  ghost predicate Summarises(s: AlertState, r: seq<Observation>) {
    && r != []
    && s.threadId == Last(r).snapshot.threadId
    && s.status == Last(r).snapshot.status
    && s.updatedAt == Last(r).snapshot.updatedAt
    && s.stateCycle == StatusChanges(r)
    && (s.fallbackApprovalCycle.Some? ==>
        s.status == WaitingForApproval && s.fallbackApprovalCycle.value == s.stateCycle)
  }

  lemma RunStep(front: seq<Observation>, o: Observation)
    ensures Run(front + [o]) == Observe(Run(front), o)
    ensures Records(front + [o]) == if NotOlder(front, o) then Records(front) + [o] else Records(front)
  {
    assert (front + [o])[..|front|] == front;
  }

  lemma StatusChangesStep(r: seq<Observation>, o: Observation)
    requires r != []
    ensures StatusChanges(r + [o])
         == StatusChanges(r) + if Last(r).snapshot.status != o.snapshot.status then 1 else 0
  {
    assert (r + [o])[..|r|] == r;
  }

  lemma SummaryStep(s: AlertState, r: seq<Observation>, o: Observation)
    requires Summarises(s, r) && s.updatedAt <= o.snapshot.updatedAt
    ensures Summarises(Detect(Some(s), o.snapshot, o.ids).nextState, r + [o])
  {
    StatusChangesStep(r, o);
  }

  lemma {:induction false} StateSummarisesRecords(obs: seq<Observation>)
    requires obs != []
    ensures Run(obs).state.Some? && Summarises(Run(obs).state.value, Records(obs))
    ensures forall o :: o in obs ==> o.snapshot.updatedAt <= Run(obs).state.value.updatedAt
    ensures Last(Records(obs)) in obs
  {
    var front, o := obs[..|obs| - 1], obs[|obs| - 1];
    assert obs == front + [o];
    RunStep(front, o);
    if front != [] {
      StateSummarisesRecords(front);
      var s := Run(front).state.value;
      AcceptedIsNotOlder(front, o);
      if s.updatedAt <= o.snapshot.updatedAt {
        SummaryStep(s, Records(front), o);
      }
    }
  }

  lemma AcceptedIsNotOlder(front: seq<Observation>, o: Observation)
    requires Run(front).state.Some? && Summarises(Run(front).state.value, Records(front))
    requires forall e :: e in front ==> e.snapshot.updatedAt <= Run(front).state.value.updatedAt
    requires Last(Records(front)) in front
    ensures NotOlder(front, o) <==> !IsStale(Run(front).state, o.snapshot)
  {
  }

  /** One more observation of a lineage that already has a state. */
  lemma Extend(front: seq<Observation>, o: Observation)
    requires front != []
    ensures Run(front).state.Some? && Summarises(Run(front).state.value, Records(front))
    ensures Run(front + [o]) == Observe(Run(front), o)
    ensures Records(front + [o])
         == if IsStale(Run(front).state, o.snapshot) then Records(front) else Records(front) + [o]
  {
    StateSummarisesRecords(front);
    AcceptedIsNotOlder(front, o);
    RunStep(front, o);
  }

  lemma {:induction false} UpdatedAtNeverDecreases(before: seq<Observation>, after: seq<Observation>)
    requires before != []
    ensures Run(before + after).state.Some? && Run(before).state.Some?
    ensures Run(before).state.value.updatedAt <= Run(before + after).state.value.updatedAt
    ensures Run(before).log <= Run(before + after).log
  {
    if after == [] {
      assert before + after == before;
      StateSummarisesRecords(before);
    } else {
      var front := after[..|after| - 1];
      UpdatedAtNeverDecreases(before, front);
      assert (before + after)[..|before + after| - 1] == before + front;
    }
  }

  lemma {:induction false} RecordsNeverDecrease(obs: seq<Observation>, i: nat, j: nat)
    requires i <= j < |Records(obs)|
    ensures Records(obs)[i].snapshot.updatedAt <= Records(obs)[j].snapshot.updatedAt
    ensures Records(obs)[i] in obs
  {
    var front, o := obs[..|obs| - 1], obs[|obs| - 1];
    var n := |Records(front)|;
    assert obs == front + [o];
    if j < n {
      RecordsNeverDecrease(front, i, j);
    } else if i < n {
      RecordsNeverDecrease(front, i, i);
    }
  }

  // ------------------------------------------------- alerts as status edges

  function Edge(kind: AlertKind, r: seq<Observation>): seq<Alert>
    requires |r| >= 2
  {
    var from, to := r[|r| - 2].snapshot, Last(r).snapshot;
    match kind
    case Completed =>
      if from.status == Running && to.status == Idle
      then [AlertFor(to, Completed, CompletedId(to.threadId, from.updatedAt, to.updatedAt))] else []
    case InputRequired =>
      if from.status != WaitingForInput && to.status == WaitingForInput
      then [CycleAlert(to, InputRequired, StatusChanges(r))] else []
    case ErrorAlert =>
      if from.status != InError && to.status == InError
      then [CycleAlert(to, ErrorAlert, StatusChanges(r))] else []
    case ApprovalRequired => []
  }

  /** One alert for every edge between consecutive records that enters the status of `kind`. */
  function Edges(kind: AlertKind, r: seq<Observation>): seq<Alert> {
    if |r| < 2 then [] else Edges(kind, r[..|r| - 1]) + Edge(kind, r)
  }

  function OfKind(kind: AlertKind): Alert -> bool {
    (a: Alert) => a.kind == kind
  }

  lemma {:induction false} NativeAlertsHaveNoOtherKind(kind: AlertKind, snapshot: Snapshot, ids: seq<string>)
    requires kind != ApprovalRequired
    ensures Filter(OfKind(kind), NativeAlerts(snapshot, ids)) == []
  {
    if ids != [] {
      NativeAlertsHaveNoOtherKind(kind, snapshot, ids[1..]);
      FilterCons(OfKind(kind), NativeAlerts(snapshot, ids)[0], NativeAlerts(snapshot, ids[1..]));
    }
  }

  function Picked(kind: AlertKind, events: seq<Alert>): seq<Alert> {
    if events != [] && events[0].kind == kind then events else []
  }

  lemma FilterAtMostOne(kind: AlertKind, events: seq<Alert>)
    requires |events| <= 1
    ensures Filter(OfKind(kind), events) == Picked(kind, events)
  {
    if events != [] {
      assert events == [events[0]] + [];
      FilterCons(OfKind(kind), events[0], []);
    }
  }

  /** Only the completion and the cycle part of a step can hold an alert of another kind. */
  lemma FilterEvents(kind: AlertKind, native: seq<Alert>, completed: seq<Alert>, cycle: seq<Alert>)
    requires Filter(OfKind(kind), native) == [] && |completed| <= 1 && |cycle| <= 1
    ensures Filter(OfKind(kind), native + completed + cycle) == Picked(kind, completed) + Picked(kind, cycle)
  {
    FilterAppend(OfKind(kind), native + completed, cycle);
    FilterAppend(OfKind(kind), native, completed);
    FilterAtMostOne(kind, completed);
    FilterAtMostOne(kind, cycle);
  }

  lemma CompletionIsTheEdge(r: seq<Observation>, s: AlertState, o: Observation)
    requires Summarises(s, r)
    ensures CompletedEvents(s, o.snapshot) == Edge(Completed, r + [o])
  {
  }

  lemma EventsOfKind(kind: AlertKind, s: AlertState, o: Observation)
    requires kind != ApprovalRequired && s.updatedAt <= o.snapshot.updatedAt
    ensures Filter(OfKind(kind), Detect(Some(s), o.snapshot, o.ids).events)
         == Picked(kind, CompletedEvents(s, o.snapshot))
            + Picked(kind, CycleEvents(s, o.snapshot, NewIds(s.knownApprovalIds, o.ids)))
  {
    var newIds := NewIds(s.knownApprovalIds, o.ids);
    NativeAlertsHaveNoOtherKind(kind, o.snapshot, newIds);
    FilterEvents(kind, NativeEvents(s, o.snapshot, newIds), CompletedEvents(s, o.snapshot),
                 CycleEvents(s, o.snapshot, newIds));
  }

  lemma PartsAreTheEdge(kind: AlertKind, r: seq<Observation>, s: AlertState, o: Observation)
    requires kind != ApprovalRequired && Summarises(s, r)
    ensures Edge(kind, r + [o])
         == Picked(kind, CompletedEvents(s, o.snapshot))
            + Picked(kind, CycleEvents(s, o.snapshot, NewIds(s.knownApprovalIds, o.ids)))
  {
    if kind == Completed {
      CompletionIsTheEdge(r, s, o);
    } else {
      CycleIsTheEdge(kind, r, s, o, NewIds(s.knownApprovalIds, o.ids));
    }
  }

  /** The alerts of one accepted observation are those of the edge it closes. */
  lemma EventsAreTheEdge(kind: AlertKind, r: seq<Observation>, s: AlertState, o: Observation)
    requires kind != ApprovalRequired
    requires Summarises(s, r) && s.updatedAt <= o.snapshot.updatedAt
    ensures Filter(OfKind(kind), Detect(Some(s), o.snapshot, o.ids).events) == Edge(kind, r + [o])
  {
    EventsOfKind(kind, s, o);
    PartsAreTheEdge(kind, r, s, o);
  }

  lemma CycleIsTheEdge(kind: AlertKind, r: seq<Observation>, s: AlertState, o: Observation, newIds: seq<string>)
    requires kind == InputRequired || kind == ErrorAlert
    requires Summarises(s, r)
    ensures Edge(kind, r + [o]) == Picked(kind, CycleEvents(s, o.snapshot, newIds))
  {
    StatusChangesStep(r, o);
  }

  lemma EdgesStep(kind: AlertKind, r: seq<Observation>, o: Observation)
    requires r != []
    ensures Edges(kind, r + [o]) == Edges(kind, r) + Edge(kind, r + [o])
  {
    assert (r + [o])[..|r|] == r;
  }

  /** Completed, input-required and error alerts are exactly the status edges of the records. */
  lemma {:induction false} AlertsAreStatusEdges(kind: AlertKind, obs: seq<Observation>)
    requires kind != ApprovalRequired
    ensures Filter(OfKind(kind), Run(obs).log) == Edges(kind, Records(obs))
  {
    if |obs| == 1 {
      assert obs[..0] == [];
    } else if obs != [] {
      var front, o := obs[..|obs| - 1], obs[|obs| - 1];
      AlertsAreStatusEdges(kind, front);
      assert obs == front + [o];
      Extend(front, o);
      var s, events := Run(front).state.value, Detect(Run(front).state, o.snapshot, o.ids).events;
      FilterAppend(OfKind(kind), Run(front).log, events);
      if !IsStale(Some(s), o.snapshot) {
        EventsAreTheEdge(kind, Records(front), s, o);
        EdgesStep(kind, Records(front), o);
      }
    }
  }

  // --------------------------------------------------- identity of the alerts

  /** The alert numbered by a status cycle that one observation raises: input, error or unnamed approval. */
  function CycleAlerts(previous: Option<AlertState>, o: Observation): seq<Alert> {
    if previous.None? || IsStale(previous, o.snapshot) then []
    else CycleEvents(previous.value, o.snapshot, NewIds(Known(previous), o.ids))
  }

  function CycleLog(obs: seq<Observation>): seq<Alert> {
    if obs == [] then []
    else
      var front := obs[..|obs| - 1];
      CycleLog(front) + CycleAlerts(Run(front).state, obs[|obs| - 1])
  }

  lemma CycleLogSnoc(front: seq<Observation>, o: Observation)
    ensures CycleLog(front + [o]) == CycleLog(front) + CycleAlerts(Run(front).state, o)
  {
    assert (front + [o])[..|front|] == front;
  }

  lemma CycleLogStep(front: seq<Observation>, o: Observation)
    requires Run(front).state.Some?
    ensures CycleLog(front + [o])
         == if IsStale(Run(front).state, o.snapshot) then CycleLog(front)
            else CycleLog(front)
                 + CycleEvents(Run(front).state.value, o.snapshot, NewIds(Known(Run(front).state), o.ids))
  {
    assert (front + [o])[..|front|] == front;
  }

  /** The alerts that name a native approval. */
  function NativeLog(obs: seq<Observation>): seq<Alert> {
    if obs == [] then []
    else
      var front, o := obs[..|obs| - 1], obs[|obs| - 1];
      var previous := Run(front).state;
      NativeLog(front)
      + if previous.None? || IsStale(previous, o.snapshot) then []
        else NativeEvents(previous.value, o.snapshot, NewIds(Known(previous), o.ids))
  }

  /** Every alert is a native approval, a completion edge or cycle-numbered, and none is lost. */
  ghost predicate Splits(obs: seq<Observation>) {
    multiset(Run(obs).log)
    == multiset(NativeLog(obs)) + multiset(Edges(Completed, Records(obs))) + multiset(CycleLog(obs))
  }

  lemma AppendSplits(log: seq<Alert>, a: seq<Alert>, b: seq<Alert>, c: seq<Alert>, x: seq<Alert>, y: seq<Alert>, z: seq<Alert>)
    requires multiset(log) == multiset(a) + multiset(b) + multiset(c)
    ensures multiset(log + (x + y + z)) == multiset(a + x) + multiset(b + y) + multiset(c + z)
  {
  }

  lemma SplitsStep(front: seq<Observation>, o: Observation)
    requires front != [] && Splits(front)
    ensures Splits(front + [o])
  {
    Extend(front, o);
    assert (front + [o])[..|front|] == front;
    var s, r := Run(front).state.value, Records(front);
    if !IsStale(Run(front).state, o.snapshot) {
      var newIds := NewIds(s.knownApprovalIds, o.ids);
      EdgesStep(Completed, r, o);
      CompletionIsTheEdge(r, s, o);
      AppendSplits(Run(front).log, NativeLog(front), Edges(Completed, r), CycleLog(front),
                   NativeEvents(s, o.snapshot, newIds), CompletedEvents(s, o.snapshot),
                   CycleEvents(s, o.snapshot, newIds));
    }
  }

  lemma FirstObservation(o: Observation)
    ensures Run([o]) == Lineage(Some(Detect(None, o.snapshot, o.ids).nextState), [])
    ensures Records([o]) == [o] && NativeLog([o]) == [] && CycleLog([o]) == [] && NativeIds([o]) == []
  {
    assert [o][..0] == [];
  }

  lemma {:induction false} LogSplits(obs: seq<Observation>)
    ensures Splits(obs)
  {
    if |obs| == 1 {
      FirstObservation(obs[0]);
      assert obs == [obs[0]];
    } else if obs != [] {
      var front, o := obs[..|obs| - 1], obs[|obs| - 1];
      assert obs == front + [o];
      LogSplits(front);
      SplitsStep(front, o);
    }
  }

  ghost predicate OneThread(obs: seq<Observation>, threadId: string) {
    forall o :: o in obs ==> o.snapshot.threadId == threadId
  }

  /** Every cycle-numbered alert so far carries a cycle from 1 up to the current one. */
  ghost predicate NumberedUpTo(alerts: seq<Alert>, threadId: string, cycle: nat) {
    forall a :: a in alerts ==> exists c | 1 <= c <= cycle :: a.eventId == CycleId(a.kind, threadId, c)
  }

  predicate DistinctIds(alerts: seq<Alert>) {
    forall i, j :: 0 <= i < j < |alerts| ==> alerts[i].eventId != alerts[j].eventId
  }

  lemma CycleStepIsDistinct(log: seq<Alert>, s: AlertState, o: Observation, threadId: string)
    requires o.snapshot.threadId == threadId && |threadId| < U64_LIMIT && s.stateCycle + 1 < U64_LIMIT
    requires NumberedUpTo(log, threadId, s.stateCycle) && DistinctIds(log)
    ensures var events := CycleEvents(s, o.snapshot, NewIds(s.knownApprovalIds, o.ids));
            && DistinctIds(log + events)
            && NumberedUpTo(log + events, threadId, NextCycle(Some(s), o.snapshot))
  {
    var events := CycleEvents(s, o.snapshot, NewIds(s.knownApprovalIds, o.ids));
    if events != [] {
      var cycle := s.stateCycle + 1;
      assert |events| == 1 && events[0].eventId == CycleId(events[0].kind, threadId, cycle);
      forall a | a in log
        ensures a.eventId != events[0].eventId
      {
        var c :| 1 <= c <= s.stateCycle && a.eventId == CycleId(a.kind, threadId, c);
        if a.eventId == events[0].eventId {
          CycleIdsDiffer(a.kind, events[0].kind, threadId, c, cycle);
        }
      }
    }
  }

  ghost predicate CyclesAreDistinct(obs: seq<Observation>, threadId: string) {
    && Run(obs).state.Some?
    && Run(obs).state.value.stateCycle < |obs|
    && NumberedUpTo(CycleLog(obs), threadId, Run(obs).state.value.stateCycle)
    && DistinctIds(CycleLog(obs))
  }

  lemma CyclesStayDistinct(front: seq<Observation>, o: Observation, threadId: string)
    requires CyclesAreDistinct(front, threadId) && o.snapshot.threadId == threadId
    requires |threadId| < U64_LIMIT && |front| < U64_LIMIT
    ensures CyclesAreDistinct(front + [o], threadId)
  {
    var s := Run(front).state.value;
    RunStep(front, o);
    CycleLogStep(front, o);
    if !IsStale(Some(s), o.snapshot) {
      CycleStepIsDistinct(CycleLog(front), s, o, threadId);
    }
  }

  lemma {:induction false} CyclesDistinctOverRuns(obs: seq<Observation>, threadId: string)
    requires obs != [] && OneThread(obs, threadId) && |threadId| < U64_LIMIT && |obs| <= U64_LIMIT
    ensures CyclesAreDistinct(obs, threadId)
  {
    if |obs| == 1 {
      FirstObservation(obs[0]);
      assert obs == [obs[0]];
    } else {
      var front, o := obs[..|obs| - 1], obs[|obs| - 1];
      assert obs == front + [o];
      CyclesDistinctOverRuns(front, threadId);
      CyclesStayDistinct(front, o, threadId);
    }
  }

  /** All cycle-numbered alerts of one lineage have different ids. */
  lemma CycleAlertsAreDistinct(obs: seq<Observation>, threadId: string)
    requires OneThread(obs, threadId) && |threadId| < U64_LIMIT && |obs| <= U64_LIMIT
    ensures DistinctIds(CycleLog(obs))
  {
    if obs != [] {
      CyclesDistinctOverRuns(obs, threadId);
    }
  }

  lemma OrderedCompletions(threadId: string, p: nat, q: nat, p': nat, q': nat)
    requires |threadId| < U64_LIMIT && p <= q <= p' <= q' < U64_LIMIT
    ensures CompletedId(threadId, p, q) == CompletedId(threadId, p', q') <==> p == q == p' == q'
  {
    if CompletedId(threadId, p, q) == CompletedId(threadId, p', q') {
      CompletedIdsDiffer(threadId, p, q, p', q');
    }
  }

  /** Two completions share an id exactly when all four of their snapshots carry one timestamp. */
  lemma CompletedIdsShared(obs: seq<Observation>, threadId: string, a: nat, b: nat)
    requires |threadId| < U64_LIMIT && forall o :: o in obs ==> o.snapshot.updatedAt < U64_LIMIT
    requires 0 < a < b < |Records(obs)|
    ensures var r := Records(obs);
            CompletedId(threadId, r[a - 1].snapshot.updatedAt, r[a].snapshot.updatedAt)
            == CompletedId(threadId, r[b - 1].snapshot.updatedAt, r[b].snapshot.updatedAt)
            <==> r[a - 1].snapshot.updatedAt == r[a].snapshot.updatedAt
                 == r[b - 1].snapshot.updatedAt == r[b].snapshot.updatedAt
  {
    var r := Records(obs);
    RecordsNeverDecrease(obs, a - 1, a);
    RecordsNeverDecrease(obs, a, b - 1);
    RecordsNeverDecrease(obs, b - 1, b);
    RecordsNeverDecrease(obs, b, b);
    OrderedCompletions(threadId, r[a - 1].snapshot.updatedAt, r[a].snapshot.updatedAt,
                       r[b - 1].snapshot.updatedAt, r[b].snapshot.updatedAt);
  }

  // ------------------------------------------------------- native approvals

  /** Every native approval id that any of the records listed. */
  ghost function Seen(r: seq<Observation>): set<string> {
    set o, id | o in r && id in o.ids :: id
  }

  /**
   A late native id is taken for the unnamed approval already alerted: the thread had been waiting
   for approval since a status change, and no id had ever been listed.
   */
  ghost predicate Absorbed(earlier: seq<Observation>) {
    && earlier != []
    && Last(earlier).snapshot.status == WaitingForApproval
    && StatusChanges(earlier) > 0
    && Seen(earlier) == {}
  }

  /** The native ids alerted by the step that adds the last record. */
  function AlertedIds(previous: AlertState, ids: seq<string>): seq<string> {
    var newIds := NewIds(previous.knownApprovalIds, ids);
    if AbsorbsNativeIds(previous, newIds) then [] else newIds
  }

  /** The native ids alerted by a run, in order. */
  function NativeIds(obs: seq<Observation>): seq<string> {
    if obs == [] then []
    else
      var front, o := obs[..|obs| - 1], obs[|obs| - 1];
      var previous := Run(front).state;
      if previous.None? || IsStale(previous, o.snapshot) then NativeIds(front)
      else NativeIds(front) + AlertedIds(previous.value, o.ids)
  }

  /** The ids first listed after the first record, apart from those absorbed. */
  ghost function FirstListed(r: seq<Observation>): set<string> {
    if |r| < 2 then {}
    else
      var earlier := r[..|r| - 1];
      FirstListed(earlier) + if Absorbed(earlier) then {} else Elements(Last(r).ids) - Seen(earlier)
  }

  lemma {:induction false} NewIdsMembers(known: seq<string>, ids: seq<string>)
    ensures forall id :: id in NewIds(known, ids) <==> id in ids && id !in known
    ensures NoDup(ids) ==> NoDup(NewIds(known, ids))
  {
    if ids != [] {
      NewIdsMembers(known, ids[1..]);
      assert forall id :: id in ids <==> id == ids[0] || id in ids[1..];
    }
  }

  lemma NewIdsFilter(known: seq<string>, ids: seq<string>)
    ensures Elements(NewIds(known, ids)) == Elements(ids) - Elements(known)
    ensures NoDup(ids) ==> NoDup(NewIds(known, ids))
  {
    NewIdsMembers(known, ids);
  }

  lemma {:induction false} RememberAddsAll(known: seq<string>, ids: seq<string>)
    requires NoDup(known)
    ensures NoDup(Remember(known, ids))
    ensures Elements(Remember(known, ids)) == Elements(known) + Elements(ids)
    decreases |ids|
  {
    if ids != [] {
      var next := if ids[0] in known then known else known + [ids[0]];
      RememberAddsAll(next, ids[1..]);
      assert Elements(next) == Elements(known) + {ids[0]};
      assert Elements(ids) == Elements(ids[1..]) + {ids[0]};
    }
  }

  lemma SeenStep(r: seq<Observation>, o: Observation)
    ensures Seen(r + [o]) == Seen(r) + Elements(o.ids)
  {
    forall id | id in Seen(r) + Elements(o.ids)
      ensures id in Seen(r + [o])
    {
      if id in Seen(r) {
        var e :| e in r && id in e.ids;
        assert e in r + [o];
      } else {
        assert o in r + [o];
      }
    }
  }

  /** All ids listed so far, in the order in which they were first listed. */
  function Order(r: seq<Observation>): seq<string> {
    if r == [] then [] else Remember(Order(r[..|r| - 1]), Last(r).ids)
  }

  /** The newest 256 of them. */
  function Newest(r: seq<Observation>): seq<string> {
    LastN(Order(r), KNOWN_LIMIT)
  }

  lemma OrderStep(r: seq<Observation>, o: Observation)
    ensures Order(r + [o]) == Remember(Order(r), o.ids)
  {
    assert (r + [o])[..|r|] == r;
  }

  lemma {:induction false} OrderListsSeen(r: seq<Observation>)
    ensures NoDup(Order(r)) && Elements(Order(r)) == Seen(r)
  {
    if r != [] {
      var front := r[..|r| - 1];
      assert r == front + [Last(r)];
      OrderListsSeen(front);
      RememberAddsAll(Order(front), Last(r).ids);
      SeenStep(front, Last(r));
    }
  }

  // ------------------------------------------------- which runs alert once

  /** Every id of the list that was listed before is among the newest 256, and no new one is repeated in it
      unless the new ones are absorbed. */
  ghost predicate CleanStep(earlier: seq<Observation>, o: Observation) {
    && (forall id :: id in o.ids && id in Seen(earlier) ==> id in Newest(earlier))
    && (Absorbed(earlier) || NoDup(NewIds(Newest(earlier), o.ids)))
  }

  ghost predicate Clean(r: seq<Observation>) {
    |r| < 2 || (Clean(r[..|r| - 1]) && CleanStep(r[..|r| - 1], Last(r)))
  }

  lemma CleanAppend(r: seq<Observation>, o: Observation)
    requires r != []
    ensures Clean(r + [o]) <==> Clean(r) && CleanStep(r, o)
  {
    assert (r + [o])[..|r|] == r;
  }

  /** Ids that are not listed again may be forgotten. */
  lemma {:induction false} RememberWithout(forgotten: seq<string>, known: seq<string>, ids: seq<string>)
    requires forall id :: id in ids && id in forgotten ==> id in known
    ensures Remember(forgotten + known, ids) == forgotten + Remember(known, ids)
    ensures |Remember(known, ids)| >= |known|
    decreases |ids|
  {
    if ids != [] {
      var id := ids[0];
      if id in known {
        RememberWithout(forgotten, known, ids[1..]);
      } else {
        assert forgotten + (known + [id]) == (forgotten + known) + [id];
        RememberWithout(forgotten, known + [id], ids[1..]);
      }
    }
  }

  lemma LastNOfNewest(s: seq<string>, more: seq<string>, kept: seq<string>)
    requires kept == LastN(s, KNOWN_LIMIT) && |more| >= |kept|
    ensures LastN(s[..|s| - |kept|] + more, KNOWN_LIMIT) == LastN(more, KNOWN_LIMIT)
  {
  }

  lemma NewestStep(r: seq<Observation>, o: Observation)
    requires forall id :: id in o.ids && id in Seen(r) ==> id in Newest(r)
    ensures LastN(Remember(Newest(r), o.ids), KNOWN_LIMIT) == Newest(r + [o])
  {
    OrderListsSeen(r);
    OrderStep(r, o);
    var order, kept := Order(r), Newest(r);
    var forgotten := order[..|order| - |kept|];
    assert order == forgotten + kept;
    assert forall id :: id in forgotten ==> id in Elements(order);
    RememberWithout(forgotten, kept, o.ids);
    LastNOfNewest(order, Remember(kept, o.ids), kept);
  }

  /** The approval memory holds the newest ids, and its fallback mark tells exactly when ids are absorbed. */
  ghost predicate Remembers(s: AlertState, r: seq<Observation>) {
    && s.knownApprovalIds == Newest(r)
    && (Seen(r) == {} ==> (s.fallbackApprovalCycle.Some? <==> Absorbed(r)))
  }

  lemma NoElements(ids: seq<string>)
    ensures Elements(ids) == {} <==> ids == []
  {
    if ids != [] {
      assert ids[0] in Elements(ids);
    }
  }

  lemma NothingNewest(r: seq<Observation>)
    ensures Newest(r) == [] <==> Seen(r) == {}
  {
    OrderListsSeen(r);
    NoElements(Order(r));
  }

  lemma RememberStep(s: AlertState, r: seq<Observation>, o: Observation)
    requires Summarises(s, r) && Remembers(s, r) && s.updatedAt <= o.snapshot.updatedAt
    requires CleanStep(r, o)
    ensures Remembers(Detect(Some(s), o.snapshot, o.ids).nextState, r + [o])
  {
    NewestStep(r, o);
    StatusChangesStep(r, o);
    SeenStep(r, o);
    NewIdsFilter(s.knownApprovalIds, o.ids);
    if Seen(r + [o]) == {} {
      NoElements(NewIds(s.knownApprovalIds, o.ids));
    }
  }

  /** In a clean step exactly the ids never listed before are new. */
  lemma NewMeansUnseen(r: seq<Observation>, o: Observation)
    requires forall id :: id in o.ids && id in Seen(r) ==> id in Newest(r)
    ensures Elements(NewIds(Newest(r), o.ids)) == Elements(o.ids) - Seen(r)
  {
    NewIdsFilter(Newest(r), o.ids);
    OrderListsSeen(r);
    assert forall id :: id in Newest(r) ==> id in Elements(Order(r));
  }

  lemma AbsorptionIsSeen(s: AlertState, r: seq<Observation>, o: Observation)
    requires Summarises(s, r) && Remembers(s, r)
    ensures var newIds := NewIds(s.knownApprovalIds, o.ids);
            AbsorbsNativeIds(s, newIds) <==> Absorbed(r) && newIds != []
  {
    NothingNewest(r);
  }

  /** The ids alerted are those first listed after the first record and not absorbed, each once. */
  ghost predicate AlertsOnce(obs: seq<Observation>) {
    NoDup(NativeIds(obs)) && Elements(NativeIds(obs)) == FirstListed(Records(obs))
  }

  lemma AlertStep(s: AlertState, r: seq<Observation>, o: Observation, log: seq<string>)
    requires r != [] && Summarises(s, r) && Remembers(s, r) && CleanStep(r, o)
    requires NoDup(log) && Elements(log) == FirstListed(r) <= Seen(r)
    ensures NoDup(log + AlertedIds(s, o.ids))
    ensures Elements(log + AlertedIds(s, o.ids)) == FirstListed(r + [o]) <= Seen(r + [o])
  {
    var newIds := NewIds(s.knownApprovalIds, o.ids);
    AbsorptionIsSeen(s, r, o);
    NewMeansUnseen(r, o);
    SeenStep(r, o);
    assert (r + [o])[..|r|] == r;
    assert log + [] == log;
    if !Absorbed(r) {
      NoDupAppend(log, newIds);
    }
  }

  lemma SeenOfOne(o: Observation)
    ensures Seen([o]) == Elements(o.ids)
  {
    SeenStep([], o);
    assert [] + [o] == [o];
  }

  lemma BaselineAlertsNothing(o: Observation)
    ensures Run([o]).state.Some? && Records([o]) == [o] && NativeIds([o]) == []
    ensures Remembers(Run([o]).state.value, [o])
  {
    FirstObservation(o);
    SeenOfOne(o);
    OrderStep([], o);
    assert [] + [o] == [o];
  }

  lemma {:induction false} CleanRunsAlertOnce(obs: seq<Observation>)
    requires obs != [] && Clean(Records(obs))
    ensures Run(obs).state.Some? && Remembers(Run(obs).state.value, Records(obs))
    ensures AlertsOnce(obs) && FirstListed(Records(obs)) <= Seen(Records(obs))
  {
    var front, o := obs[..|obs| - 1], obs[|obs| - 1];
    assert obs == front + [o];
    if front == [] {
      BaselineAlertsNothing(o);
    } else {
      Extend(front, o);
      CleanAppend(Records(front), o);
      CleanRunsAlertOnce(front);
      if !IsStale(Run(front).state, o.snapshot) {
        RememberStep(Run(front).state.value, Records(front), o);
        AlertStep(Run(front).state.value, Records(front), o, NativeIds(front));
      }
    }
  }

  /** An id was alerted twice, or one that was not alerted when it was first listed has been alerted since. */
  ghost predicate Spoiled(obs: seq<Observation>) {
    || !NoDup(NativeIds(obs))
    || exists id :: id in NativeIds(obs) && id in Seen(Records(obs)) && id !in FirstListed(Records(obs))
  }

  lemma FirstListedStep(r: seq<Observation>, o: Observation)
    requires r != []
    ensures FirstListed(r + [o]) == FirstListed(r) + if Absorbed(r) then {} else Elements(o.ids) - Seen(r)
  {
    assert (r + [o])[..|r|] == r;
  }

  lemma SpoiledStays(front: seq<Observation>, o: Observation)
    requires front != [] && Spoiled(front)
    ensures Spoiled(front + [o])
  {
    Extend(front, o);
    var log, log' := NativeIds(front), NativeIds(front + [o]);
    assert log <= log' by {
      assert (front + [o])[..|front|] == front;
    }
    SeenStep(Records(front), o);
    FirstListedStep(Records(front), o);
    if NoDup(log) {
      var id :| id in log && id in Seen(Records(front)) && id !in FirstListed(Records(front));
      assert id in log';
    } else {
      var i, j :| 0 <= i < j < |log| && log[i] == log[j];
      assert log'[i] == log'[j];
    }
  }

  lemma RepeatsAppear(log: seq<string>, more: seq<string>)
    ensures NoDup(log + more) ==> NoDup(more) && forall id :: id in more ==> id !in log
  {
    if NoDup(log + more) {
      forall i, j | 0 <= i < j < |more|
        ensures more[i] != more[j]
      {
        assert (log + more)[|log| + i] == more[i] && (log + more)[|log| + j] == more[j];
      }
      forall i, j | 0 <= i < |log| && 0 <= j < |more|
        ensures log[i] != more[j]
      {
        assert (log + more)[i] == log[i] && (log + more)[|log| + j] == more[j];
      }
    }
  }

  /** An id that is listed again after it was forgotten is alerted then. */
  lemma ForgottenSpoils(front: seq<Observation>, o: Observation, newIds: seq<string>, forgotten: string)
    requires AlertsOnce(front) && forgotten in newIds
    requires Records(front + [o]) == Records(front) + [o] && NativeIds(front + [o]) == NativeIds(front) + newIds
    requires Records(front) != [] && forgotten in Seen(Records(front))
    ensures Spoiled(front + [o])
  {
    var r := Records(front);
    RepeatsAppear(NativeIds(front), newIds);
    SeenStep(r, o);
    FirstListedStep(r, o);
    assert forgotten in NativeIds(front) <==> forgotten in Elements(NativeIds(front));
  }

  lemma AlertedIdsAppended(front: seq<Observation>, o: Observation)
    requires front != [] && Run(front).state.Some? && !IsStale(Run(front).state, o.snapshot)
    ensures NativeIds(front + [o]) == NativeIds(front) + AlertedIds(Run(front).state.value, o.ids)
  {
    assert (front + [o])[..|front|] == front;
  }

  lemma UncleanStepSpoils(front: seq<Observation>, o: Observation)
    requires front != [] && Clean(Records(front)) && !Clean(Records(front + [o]))
    ensures Spoiled(front + [o])
  {
    Extend(front, o);
    CleanAppend(Records(front), o);
    CleanRunsAlertOnce(front);
    AlertedIdsAppended(front, o);
    var r := Records(front);
    var newIds := NewIds(Newest(r), o.ids);
    AbsorptionIsSeen(Run(front).state.value, r, o);
    NewIdsMembers(Newest(r), o.ids);
    if forgotten :| forgotten in o.ids && forgotten in Seen(r) && forgotten !in Newest(r) {
      ForgottenSpoils(front, o, newIds, forgotten);
    } else {
      RepeatsAppear(NativeIds(front), newIds);
    }
  }

  lemma {:induction false} UncleanRunsAreSpoiled(obs: seq<Observation>)
    requires obs != [] && !Clean(Records(obs))
    ensures Spoiled(obs)
  {
    var front, o := obs[..|obs| - 1], obs[|obs| - 1];
    assert obs == front + [o];
    if front == [] {
      BaselineAlertsNothing(o);
    } else if Clean(Records(front)) {
      UncleanStepSpoils(front, o);
    } else {
      UncleanRunsAreSpoiled(front);
      SpoiledStays(front, o);
    }
  }

  /**
   A lineage alerts each id listed after the first record exactly once, when it first appears and unless it is
   absorbed, exactly when every id that is listed again is among the newest 256, and no list repeats a new id.
   */
  lemma AlertsOnceExactly(obs: seq<Observation>)
    requires obs != []
    ensures AlertsOnce(obs) <==> Clean(Records(obs))
  {
    if Clean(Records(obs)) {
      CleanRunsAlertOnce(obs);
    } else {
      UncleanRunsAreSpoiled(obs);
      assert forall id :: id in NativeIds(obs) ==> id in Elements(NativeIds(obs));
    }
  }

  ghost predicate CleanLists(obs: seq<Observation>) {
    forall o :: o in obs ==> NoDup(o.ids)
  }

  lemma {:induction false} RecordsAmongAll(obs: seq<Observation>)
    ensures forall o :: o in Records(obs) ==> o in obs
  {
    if obs != [] {
      RecordsAmongAll(obs[..|obs| - 1]);
    }
  }

  lemma {:induction false} FewIdsAreClean(r: seq<Observation>)
    requires CleanLists(r) && |Seen(r)| <= KNOWN_LIMIT
    ensures Clean(r)
  {
    if |r| >= 2 {
      var front := r[..|r| - 1];
      assert r == front + [Last(r)];
      SeenStep(front, Last(r));
      SubsetCount(Seen(front), Seen(r));
      FewIdsAreClean(front);
      OrderListsSeen(front);
      NoDupCount(Order(front));
      assert forall id :: id in Elements(Order(front)) ==> id in Newest(front);
      NewIdsFilter(Newest(front), Last(r).ids);
    }
  }

  /** So it does while it sees at most 256 distinct ids, in lists without repeats. */
  lemma EachIdAlertsOnce(obs: seq<Observation>)
    requires obs != [] && CleanLists(obs) && |Seen(Records(obs))| <= KNOWN_LIMIT
    ensures NoDup(NativeIds(obs))
    ensures Elements(NativeIds(obs)) == FirstListed(Records(obs)) <= Seen(Records(obs))
  {
    RecordsAmongAll(obs);
    FewIdsAreClean(Records(obs));
    CleanRunsAlertOnce(obs);
  }

  /** The edges into an approval wait whose record lists no id that was not listed before. */
  ghost function UnnamedEdges(r: seq<Observation>): seq<Alert> {
    if |r| < 2 then []
    else
      var earlier, to := r[..|r| - 1], Last(r);
      UnnamedEdges(earlier)
      + if Last(earlier).snapshot.status != WaitingForApproval && to.snapshot.status == WaitingForApproval
           && Elements(to.ids) <= Seen(earlier)
        then [CycleAlert(to.snapshot, ApprovalRequired, StatusChanges(r))] else []
  }

  lemma UnnamedStep(s: AlertState, r: seq<Observation>, o: Observation)
    requires Summarises(s, r) && Remembers(s, r) && CleanStep(r, o)
    ensures UnnamedEdges(r + [o])
         == UnnamedEdges(r)
            + Filter(OfKind(ApprovalRequired), CycleEvents(s, o.snapshot, NewIds(s.knownApprovalIds, o.ids)))
  {
    var newIds := NewIds(s.knownApprovalIds, o.ids);
    assert (r + [o])[..|r|] == r;
    StatusChangesStep(r, o);
    FilterAtMostOne(ApprovalRequired, CycleEvents(s, o.snapshot, newIds));
    NewMeansUnseen(r, o);
    NoElements(newIds);
    NothingLeft(Elements(o.ids), Seen(r));
  }

  lemma NothingLeft(a: set<string>, b: set<string>)
    ensures a - b == {} <==> a <= b
  {
    assert a - b == {} ==> forall x :: x in a ==> x in b || x in a - b;
  }

  ghost predicate UnnamedMatches(obs: seq<Observation>) {
    Filter(OfKind(ApprovalRequired), CycleLog(obs)) == UnnamedEdges(Records(obs))
  }

  lemma UnnamedMatchesStep(front: seq<Observation>, o: Observation)
    requires front != [] && UnnamedMatches(front)
    requires Run(front).state.Some? && Remembers(Run(front).state.value, Records(front))
    requires Clean(Records(front + [o]))
    ensures UnnamedMatches(front + [o])
  {
    Extend(front, o);
    CycleLogStep(front, o);
    var s := Run(front).state.value;
    if !IsStale(Some(s), o.snapshot) {
      CleanAppend(Records(front), o);
      UnnamedStep(s, Records(front), o);
      FilterAppend(OfKind(ApprovalRequired), CycleLog(front),
                   CycleEvents(s, o.snapshot, NewIds(s.knownApprovalIds, o.ids)));
    }
  }

  /** Under the same condition the unnamed approval alerts are exactly those edges. */
  lemma {:induction false} UnnamedApprovalsAreEdges(obs: seq<Observation>)
    requires obs != [] && Clean(Records(obs))
    ensures UnnamedMatches(obs)
  {
    if |obs| == 1 {
      FirstObservation(obs[0]);
      assert obs == [obs[0]];
    } else {
      var front, o := obs[..|obs| - 1], obs[|obs| - 1];
      assert obs == front + [o];
      Extend(front, o);
      CleanAppend(Records(front), o);
      CleanRunsAlertOnce(front);
      UnnamedApprovalsAreEdges(front);
      UnnamedMatchesStep(front, o);
    }
  }

  lemma {:induction false} NativeAlertsNameIds(snapshot: Snapshot, ids: seq<string>, k: nat)
    requires k < |ids|
    ensures |NativeAlerts(snapshot, ids)| == |ids|
    ensures NativeAlerts(snapshot, ids)[k].eventId == NativeId(snapshot.threadId, ids[k])
    ensures NativeAlerts(snapshot, ids)[k].kind == ApprovalRequired
  {
    if |ids| > 1 {
      NativeAlertsNameIds(snapshot, ids[1..], if k > 0 then k - 1 else 0);
    }
  }

  predicate NamesIds(log: seq<Alert>, threadId: string, ids: seq<string>) {
    && |log| == |ids|
    && forall k :: 0 <= k < |ids| ==>
       log[k].eventId == NativeId(threadId, ids[k]) && log[k].kind == ApprovalRequired
  }

  lemma NamesIdsAppend(log: seq<Alert>, snapshot: Snapshot, ids: seq<string>, more: seq<string>)
    requires NamesIds(log, snapshot.threadId, ids)
    ensures NamesIds(log + NativeAlerts(snapshot, more), snapshot.threadId, ids + more)
  {
    forall k | 0 <= k < |more|
      ensures |NativeAlerts(snapshot, more)| == |more|
      ensures NativeAlerts(snapshot, more)[k].eventId == NativeId(snapshot.threadId, more[k])
      ensures NativeAlerts(snapshot, more)[k].kind == ApprovalRequired
    {
      NativeAlertsNameIds(snapshot, more, k);
    }
    assert more == [] ==> NativeAlerts(snapshot, more) == [];
  }

  /** The native alerts of a run are the alerted ids, one by one. */
  lemma {:induction false} NativeLogNamesIds(obs: seq<Observation>, threadId: string)
    requires OneThread(obs, threadId)
    ensures NamesIds(NativeLog(obs), threadId, NativeIds(obs))
  {
    if obs != [] {
      var front, o := obs[..|obs| - 1], obs[|obs| - 1];
      assert obs == front + [o];
      NativeLogNamesIds(front, threadId);
      var previous := Run(front).state;
      if previous.Some? && !IsStale(previous, o.snapshot) {
        NamesIdsAppend(NativeLog(front), o.snapshot, NativeIds(front), AlertedIds(previous.value, o.ids));
      }
    }
  }

  lemma NativeIdsDiffer(threadId: string, a: string, b: string)
    requires |threadId| < U64_LIMIT && |a| < U64_LIMIT && |b| < U64_LIMIT
    requires NativeId(threadId, a) == NativeId(threadId, b)
    ensures a == b
  {
    var p, q := ["approval_required", threadId, a], ["approval_required", threadId, b];
    EncodeInjective(p, q);
    assert p[2] == q[2];
  }

  /** Two native alerts share an id exactly when an id was alerted twice, so under the same condition none do. */
  lemma NativeAlertsAreDistinct(obs: seq<Observation>, threadId: string)
    requires obs != [] && OneThread(obs, threadId)
    requires |threadId| < U64_LIMIT && forall id :: id in NativeIds(obs) ==> |id| < U64_LIMIT
    ensures DistinctIds(NativeLog(obs)) <==> NoDup(NativeIds(obs))
    ensures Clean(Records(obs)) ==> DistinctIds(NativeLog(obs))
  {
    if Clean(Records(obs)) {
      CleanRunsAlertOnce(obs);
    }
    NativeLogNamesIds(obs, threadId);
    var log, ids := NativeLog(obs), NativeIds(obs);
    forall i, j | 0 <= i < j < |log|
      ensures log[i].eventId == log[j].eventId <==> ids[i] == ids[j]
    {
      if log[i].eventId == log[j].eventId {
        NativeIdsDiffer(threadId, ids[i], ids[j]);
      }
    }
  }

  // ----------------------------------------------- ids across the kinds

  /** The id of an alert starts with its kind and its thread. */
  ghost predicate NamesItself(a: Alert) {
    |a.threadId| < U64_LIMIT
    && exists rest: seq<string> | Sized(rest) :: a.eventId == Encode([KindName(a.kind), a.threadId] + rest)
  }

  lemma NamesDiffer(a: Alert, b: Alert)
    requires NamesItself(a) && NamesItself(b) && a.eventId == b.eventId
    ensures a.kind == b.kind && a.threadId == b.threadId
  {
    var x: seq<string> :| Sized(x) && a.eventId == Encode([KindName(a.kind), a.threadId] + x);
    var y: seq<string> :| Sized(y) && b.eventId == Encode([KindName(b.kind), b.threadId] + y);
    var p, q := [KindName(a.kind), a.threadId] + x, [KindName(b.kind), b.threadId] + y;
    EncodeInjective(p, q);
    assert p[0] == q[0] && p[1] == q[1];
  }

  ghost predicate SmallInputs(obs: seq<Observation>) {
    && |obs| <= U64_LIMIT
    && forall o :: o in obs ==>
       && |o.snapshot.threadId| < U64_LIMIT && o.snapshot.updatedAt < U64_LIMIT
       && forall id :: id in o.ids ==> |id| < U64_LIMIT
  }

  ghost predicate AllNameThemselves(log: seq<Alert>) {
    forall a :: a in log ==> NamesItself(a)
  }

  lemma {:induction false} NativeAlertsThread(snapshot: Snapshot, ids: seq<string>)
    ensures forall a :: a in NativeAlerts(snapshot, ids) ==> a.threadId == snapshot.threadId
  {
    if ids != [] {
      NativeAlertsThread(snapshot, ids[1..]);
    }
  }

  lemma NativeAlertsNameThemselves(snapshot: Snapshot, ids: seq<string>)
    requires |snapshot.threadId| < U64_LIMIT && forall id :: id in ids ==> |id| < U64_LIMIT
    ensures AllNameThemselves(NativeAlerts(snapshot, ids))
  {
    forall a | a in NativeAlerts(snapshot, ids)
      ensures NamesItself(a)
    {
      if ids != [] {
        NativeAlertsNameIds(snapshot, ids, 0);
        var k :| 0 <= k < |ids| && NativeAlerts(snapshot, ids)[k] == a;
        NativeAlertsNameIds(snapshot, ids, k);
        NativeAlertsThread(snapshot, ids);
        var rest := [ids[k]];
        assert [KindName(a.kind), a.threadId] + rest == ["approval_required", snapshot.threadId, ids[k]];
        assert Sized(rest);
      }
    }
  }

  lemma StatusAlertsNameThemselves(s: AlertState, snapshot: Snapshot, newIds: seq<string>)
    requires |snapshot.threadId| < U64_LIMIT && snapshot.updatedAt < U64_LIMIT
    requires s.updatedAt < U64_LIMIT && s.stateCycle + 1 < U64_LIMIT
    ensures AllNameThemselves(CompletedEvents(s, snapshot))
    ensures AllNameThemselves(CycleEvents(s, snapshot, newIds))
  {
    DecimalSized(s.updatedAt);
    DecimalSized(snapshot.updatedAt);
    DecimalSized(s.stateCycle + 1);
    forall a | a in CompletedEvents(s, snapshot)
      ensures NamesItself(a)
    {
      var rest := [Decimal(s.updatedAt), Decimal(snapshot.updatedAt)];
      assert [KindName(a.kind), a.threadId] + rest
          == ["completed", snapshot.threadId, Decimal(s.updatedAt), Decimal(snapshot.updatedAt)];
    }
    forall a | a in CycleEvents(s, snapshot, newIds)
      ensures NamesItself(a)
    {
      var rest := [Decimal(s.stateCycle + 1)];
      assert [KindName(a.kind), a.threadId] + rest == [KindName(a.kind), snapshot.threadId, Decimal(s.stateCycle + 1)];
    }
  }

  lemma {:induction false} RunNamesItself(obs: seq<Observation>)
    requires SmallInputs(obs)
    ensures AllNameThemselves(Run(obs).log)
    ensures Run(obs).state.Some? ==>
            Run(obs).state.value.stateCycle < |obs| && Run(obs).state.value.updatedAt < U64_LIMIT
  {
    if obs != [] {
      var front, o := obs[..|obs| - 1], obs[|obs| - 1];
      assert obs == front + [o];
      RunNamesItself(front);
      var previous := Run(front).state;
      if previous.Some? && !IsStale(previous, o.snapshot) {
        var newIds := NewIds(Known(previous), o.ids);
        NewIdsMembers(Known(previous), o.ids);
        NativeAlertsNameThemselves(o.snapshot, newIds);
        StatusAlertsNameThemselves(previous.value, o.snapshot, newIds);
      }
    }
  }

  /** Alerts of different kinds never share an id. */
  lemma KindsNeverCollide(obs: seq<Observation>)
    requires SmallInputs(obs)
    ensures forall a, b :: a in Run(obs).log && b in Run(obs).log && a.eventId == b.eventId ==> a.kind == b.kind
  {
    RunNamesItself(obs);
    forall a, b | a in Run(obs).log && b in Run(obs).log && a.eventId == b.eventId
      ensures a.kind == b.kind
    {
      NamesDiffer(a, b);
    }
  }

  // ------------------------------------------ where uniqueness stops

  /** A native id and an unnamed approval share an alert id exactly when the id prints the cycle. */
  lemma NativeMeetsFallback(threadId: string, approvalId: string, cycle: nat)
    requires |threadId| < U64_LIMIT && |approvalId| < U64_LIMIT && cycle < U64_LIMIT
    ensures NativeId(threadId, approvalId) == CycleId(ApprovalRequired, threadId, cycle)
       <==> approvalId == Decimal(cycle)
  {
    DecimalSized(cycle);
    if NativeId(threadId, approvalId) == CycleId(ApprovalRequired, threadId, cycle) {
      NativeIdsDiffer(threadId, approvalId, Decimal(cycle));
    }
  }

  /**
   Such a pair is reached in three steps from any state outside an approval wait: an unnamed approval,
   a return to idle, and a request that is numbered like the cycle of the first.
   */
  lemma DecimalRequestRepeatsAlert(s: AlertState, waiting: Snapshot, idle: Snapshot, later: Snapshot)
    requires s.status != WaitingForApproval && waiting.status == WaitingForApproval && idle.status == Idle
    requires s.updatedAt <= waiting.updatedAt <= idle.updatedAt <= later.updatedAt
    requires later.status == Idle && waiting.threadId == later.threadId
    requires |s.knownApprovalIds| <= KNOWN_LIMIT && Decimal(s.stateCycle + 1) !in s.knownApprovalIds
    ensures var first := Detect(Some(s), waiting, []);
            var second := Detect(Some(first.nextState), idle, []);
            var third := Detect(Some(second.nextState), later, [Decimal(s.stateCycle + 1)]);
            && |first.events| == 1 && second.events == [] && |third.events| == 1
            && first.events[0].eventId == third.events[0].eventId
  {
    var id := Decimal(s.stateCycle + 1);
    var first := Detect(Some(s), waiting, []);
    assert first.events == [] + [] + [CycleAlert(waiting, ApprovalRequired, s.stateCycle + 1)];
    var second := Detect(Some(first.nextState), idle, []);
    assert second.nextState.knownApprovalIds == s.knownApprovalIds;
    assert NewIds(s.knownApprovalIds, [id]) == [id];
    assert NativeAlerts(later, [id]) == [AlertFor(later, ApprovalRequired, NativeId(later.threadId, id))];
  }

  /** A 257th id evicts the oldest one, and that id is alerted again if it is still pending. */
  lemma EvictedIdAlertsAgain(s: AlertState, o: Observation, again: Observation)
    requires |s.knownApprovalIds| == KNOWN_LIMIT && NoDup(s.knownApprovalIds)
    requires |o.ids| == 1 && o.ids[0] !in s.knownApprovalIds
    requires again.ids == [s.knownApprovalIds[0]]
    requires s.updatedAt <= o.snapshot.updatedAt <= again.snapshot.updatedAt
    ensures var next := Detect(Some(s), o.snapshot, o.ids).nextState;
            var d := Detect(Some(next), again.snapshot, again.ids);
            && s.knownApprovalIds[0] !in next.knownApprovalIds
            && d.events != []
            && d.events[0].eventId == NativeId(again.snapshot.threadId, s.knownApprovalIds[0])
  {
    var known, id := s.knownApprovalIds, o.ids[0];
    assert o.ids == [id] && o.ids[1..] == [];
    assert Remember(known, o.ids) == known + [id];
    var next := Detect(Some(s), o.snapshot, o.ids).nextState;
    assert next.knownApprovalIds == (known + [id])[1..];
    assert NewIds(next.knownApprovalIds, again.ids) == again.ids;
  }

  /** A list that repeats a new id alerts it as often as it repeats it. */
  lemma {:induction false} RepeatedIdAlertsRepeatedly(known: seq<string>, id: string, ids: seq<string>)
    requires id !in known
    ensures multiset(NewIds(known, ids))[id] == multiset(ids)[id]
  {
    if ids != [] {
      RepeatedIdAlertsRepeatedly(known, id, ids[1..]);
      assert ids == [ids[0]] + ids[1..];
    }
  }
}
