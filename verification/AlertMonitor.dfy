/**
 The alert-state table and its two writers: the live path observes one snapshot, the poll observes the
 snapshots of a thread list.  Each observation loads, detects and saves under one lock, so it is one
 step; the history below is any interleaving of those steps.
 */
module AlertMonitor {
  import opened Sequences
  import opened Sqlite
  import opened Wrappers
  import opened AlertDetector
  import opened AlertRuns

  /** The observations of one thread, in the order in which they took the lock. */
  function OfThread(threadId: string, history: seq<Observation>): seq<Observation> {
    if history == [] then []
    else
      var o := history[|history| - 1];
      var earlier := OfThread(threadId, history[..|history| - 1]);
      if o.snapshot.threadId == threadId then earlier + [o] else earlier
  }

  lemma OfThreadStep(threadId: string, history: seq<Observation>, o: Observation)
    ensures OfThread(threadId, history + [o])
         == if o.snapshot.threadId == threadId then OfThread(threadId, history) + [o] else OfThread(threadId, history)
  {
    assert (history + [o])[..|history|] == history;
  }

  function StateOf(threadId: string, history: seq<Observation>): Option<AlertState> {
    Run(OfThread(threadId, history)).state
  }

  lemma StateOfStep(threadId: string, history: seq<Observation>, o: Observation)
    ensures StateOf(threadId, history + [o])
         == if o.snapshot.threadId != threadId then StateOf(threadId, history)
            else Some(Detect(StateOf(threadId, history), o.snapshot, o.ids).nextState)
  {
    OfThreadStep(threadId, history, o);
    RunStep(OfThread(threadId, history), o);
  }

  /** The pending request ids of one thread, in the order the adapter reported them. */
  function RequestsOf(threadId: string, approvals: seq<(string, string)>): seq<string> {
    if approvals == [] then []
    else (if approvals[0].0 == threadId then [approvals[0].1] else []) + RequestsOf(threadId, approvals[1..])
  }

  /** Every pending request is listed for its own thread, as often and in the order in which it was reported. */
  lemma {:induction false} RequestsAreTheThreads(threadId: string, approvals: seq<(string, string)>, id: string)
    ensures multiset(RequestsOf(threadId, approvals))[id] == multiset(approvals)[(threadId, id)]
  {
    if approvals != [] {
      RequestsAreTheThreads(threadId, approvals[1..], id);
      assert approvals == [approvals[0]] + approvals[1..];
    }
  }

  lemma {:induction false} RequestsInOrder(threadId: string, a: seq<(string, string)>, b: seq<(string, string)>)
    ensures RequestsOf(threadId, a + b) == RequestsOf(threadId, a) + RequestsOf(threadId, b)
  {
    if a == [] {
      assert a + b == b;
    } else {
      assert (a + b)[1..] == a[1..] + b;
      RequestsInOrder(threadId, a[1..], b);
    }
  }

  function PollObservation(t: Snapshot, approvals: seq<(string, string)>): Observation {
    Observation(t, RequestsOf(t.threadId, approvals))
  }

  function StepAlerts(history: seq<Observation>, o: Observation): seq<Alert> {
    Detect(StateOf(o.snapshot.threadId, history), o.snapshot, o.ids).events
  }

  /** The alerts of a stretch of observations, each thread continuing its own lineage. */
  function AlertsOf(history: seq<Observation>, steps: seq<Observation>): seq<Alert> {
    if steps == [] then []
    else
      var front := steps[..|steps| - 1];
      AlertsOf(history, front) + StepAlerts(history + front, steps[|steps| - 1])
  }

  lemma AlertsStep(history: seq<Observation>, front: seq<Observation>, o: Observation)
    ensures AlertsOf(history, front + [o]) == AlertsOf(history, front) + StepAlerts(history + front, o)
  {
    assert (front + [o])[..|front|] == front;
  }

  lemma DetectedAlertsThread(previous: Option<AlertState>, snapshot: Snapshot, ids: seq<string>)
    ensures forall a :: a in Detect(previous, snapshot, ids).events ==> a.threadId == snapshot.threadId
  {
    NativeAlertsThread(snapshot, NewIds(Known(previous), ids));
  }

  function LogOf(threadId: string, history: seq<Observation>): seq<Alert> {
    Run(OfThread(threadId, history)).log
  }

  lemma LogStep(threadId: string, history: seq<Observation>, o: Observation)
    ensures LogOf(threadId, history + [o])
         == if o.snapshot.threadId == threadId then LogOf(threadId, history) + StepAlerts(history, o)
            else LogOf(threadId, history)
  {
    OfThreadStep(threadId, history, o);
    RunStep(OfThread(threadId, history), o);
  }

  function AboutThread(threadId: string): Alert -> bool {
    (a: Alert) => a.threadId == threadId
  }

  lemma FilterStep(threadId: string, history: seq<Observation>, o: Observation, log: seq<Alert>)
    ensures Filter(AboutThread(threadId), log + StepAlerts(history, o))
         == if o.snapshot.threadId == threadId then Filter(AboutThread(threadId), log) + StepAlerts(history, o)
            else Filter(AboutThread(threadId), log)
  {
    var now := StepAlerts(history, o);
    DetectedAlertsThread(StateOf(o.snapshot.threadId, history), o.snapshot, o.ids);
    FilterAppend(AboutThread(threadId), log, now);
    if o.snapshot.threadId == threadId {
      FilterAll(AboutThread(threadId), now);
    } else {
      FilterNone(AboutThread(threadId), now);
    }
  }

  /** The log of a thread's own lineage grows by the alerts of the stretch that are about the thread. */
  ghost predicate ExtendsLineage(threadId: string, history: seq<Observation>, steps: seq<Observation>) {
    LogOf(threadId, history + steps)
    == LogOf(threadId, history) + Filter(AboutThread(threadId), AlertsOf(history, steps))
  }

  lemma ExtendStep(threadId: string, history: seq<Observation>, front: seq<Observation>, o: Observation)
    requires ExtendsLineage(threadId, history, front)
    ensures ExtendsLineage(threadId, history, front + [o])
  {
    var log, now := AlertsOf(history, front), StepAlerts(history + front, o);
    AppendAssociates(history, front, [o]);
    LogStep(threadId, history + front, o);
    FilterStep(threadId, history + front, o, log);
    AlertsStep(history, front, o);
    AppendAssociates(LogOf(threadId, history), Filter(AboutThread(threadId), log), now);
  }

  /** Whatever the interleaving, the alerts about a thread are those its own lineage adds. */
  lemma {:induction false} AlertsExtendLineages(threadId: string, history: seq<Observation>, steps: seq<Observation>)
    ensures ExtendsLineage(threadId, history, steps)
  {
    if steps == [] {
      assert history + steps == history;
    } else {
      var front, o := steps[..|steps| - 1], steps[|steps| - 1];
      assert steps == front + [o];
      AlertsExtendLineages(threadId, history, front);
      ExtendStep(threadId, history, front, o);
    }
  }

  /** The new state has a number that the table cannot hold. */
  predicate SaveRefused(previous: Option<AlertState>, o: Observation) {
    var d := Detect(previous, o.snapshot, o.ids);
    && !d.ignoredAsStale
    && !(Storable(d.nextState.updatedAt) && Storable(d.nextState.stateCycle)
         && (d.nextState.fallbackApprovalCycle.Some? ==> Storable(d.nextState.fallbackApprovalCycle.value)))
  }

  /** A cycle of the poll: whether it saw a thread that is not idle, or that it broke off. */
  datatype CycleOutcome = Finished(anyActive: bool) | BrokenOff

  function Lookup(states: map<string, AlertState>, threadId: string): Option<AlertState> {
    if threadId in states then Some(states[threadId]) else None
  }

  class AlertStateStore {
    var states: map<string, AlertState>
    ghost var history: seq<Observation>

    /** The table holds, for every thread, the state of that thread's own lineage. */
    ghost predicate Valid()
      reads this
    {
      forall threadId: string {:trigger Lookup(states, threadId)} :: Lookup(states, threadId) == StateOf(threadId, history)
    }

    constructor ()
      ensures Valid() && history == []
    {
      states, history := map[], [];
    }

    /** One load, detect and save under the store lock; a refused save leaves no trace. */
    method ObserveSnapshot(snapshot: Snapshot, ids: seq<string>) returns (events: Result<seq<Alert>, Refusal>)
      requires Valid()
      modifies this
      ensures Valid()
      ensures var o := Observation(snapshot, ids);
              if SaveRefused(StateOf(snapshot.threadId, old(history)), o) then
                events == Err(Refused) && history == old(history) && states == old(states)
              else
                events == Ok(StepAlerts(old(history), o)) && history == old(history) + [o]
    {
      var previous := Lookup(states, snapshot.threadId);
      var result := DetectAlerts(previous, snapshot, ids);
      if !result.ignoredAsStale {
        var next := result.nextState;
        if next.updatedAt > I64_MAX || next.stateCycle > I64_MAX
           || (next.fallbackApprovalCycle.Some? && next.fallbackApprovalCycle.value > I64_MAX) {
          return Err(Refused);
        }
        states := states[next.threadId := next];
      }
      ghost var o := Observation(snapshot, ids);
      forall threadId: string
        ensures Lookup(states, threadId) == StateOf(threadId, history + [o])
      {
        assert Lookup(old(states), threadId) == StateOf(threadId, history);
        StateOfStep(threadId, history, o);
      }
      history := history + [o];
      events := Ok(result.events);
    }

    /** The live path: the ids are the pending approvals that the hub snapshot carries; a refused save is silent. */
    method ProcessSnapshotAlerts(snapshot: Snapshot, pendingApprovalIds: seq<string>) returns (events: seq<Alert>)
      requires Valid()
      modifies this
      ensures Valid()
      ensures var o := Observation(snapshot, pendingApprovalIds);
              if SaveRefused(StateOf(snapshot.threadId, old(history)), o) then
                events == [] && history == old(history)
              else
                events == StepAlerts(old(history), o) && history == old(history) + [o]
    {
      var found := ObserveSnapshot(snapshot, pendingApprovalIds);
      events := if found.Ok? then found.value else [];
    }

    /** The alerts of one observation, dispatched in order up to the first failure, after those of `before`;
        `accepts(n)` says whether the dispatch that follows `n` others of the cycle goes through. */
    method DispatchAll(events: seq<Alert>, accepts: nat -> bool, before: seq<Alert>) returns (dispatched: seq<Alert>, ok: bool)
      requires AcceptsTo(accepts, |before|)
      ensures AcceptsTo(accepts, |dispatched|) && before <= dispatched <= before + events
      ensures ok <==> dispatched == before + events
      ensures !ok ==> !accepts(|dispatched|)
    {
      dispatched := before;
      for i := 0 to |events|
        invariant dispatched == before + events[..i] && AcceptsTo(accepts, |dispatched|)
      {
        if !accepts(|dispatched|) {
          return dispatched, false;
        }
        AppendAssociates(before, events[..i], [events[i]]);
        assert events[..i + 1] == events[..i] + [events[i]];
        dispatched := dispatched + [events[i]];
      }
      assert events[..|events|] == events;
      ok := true;
    }

    /** What the live path observes while it has the store; it dispatches its alerts itself. */
    method ObserveLive(live: seq<Observation>)
      requires Valid()
      modifies this
      ensures Valid() && history == AfterLive(old(history), live)
    {
      for i := 0 to |live|
        invariant Valid() && history == AfterLive(old(history), live[..i])
      {
        assert live[..i + 1][..i] == live[..i];
        var _ := ProcessSnapshotAlerts(live[i].snapshot, live[i].ids);
      }
      assert live[..|live|] == live;
    }

    /**
     One poll: nothing without an enabled device, otherwise one observation for each thread, whose alerts are
     dispatched before the next; `live(i)` is what the live path observes before the `i`-th of them.  An adapter
     error, a refused save or a failed dispatch breaks it off; what was observed stays observed, and the alerts
     dispatched are a prefix of those it raised.
     */
    method RunCycle(anyEnabled: bool, wantsApprovals: bool, listed: Option<seq<Snapshot>>,
                    pending: Option<seq<(string, string)>>, live: nat -> seq<Observation>, accepts: nat -> bool)
      returns (dispatched: seq<Alert>, outcome: CycleOutcome, ghost observed: nat)
      requires Valid()
      modifies this
      ensures Valid()
      ensures !anyEnabled || listed.None? || (wantsApprovals && pending.None?) ==>
              dispatched == [] && unchanged(this) && outcome == if anyEnabled then BrokenOff else Finished(false)
      ensures anyEnabled && listed.Some? && (wantsApprovals ==> pending.Some?) ==>
              var cycle := Cycle(old(history), listed.value, if wantsApprovals then pending.value else [], live);
              CycleEnds(cycle, accepts, history, dispatched, outcome, observed)
    {
      if !anyEnabled {
        return [], Finished(false), 0;
      }
      if listed.None? || (wantsApprovals && pending.None?) {
        return [], BrokenOff, 0;
      }
      dispatched, outcome, observed :=
        ObserveAll(listed.value, if wantsApprovals then pending.value else [], live, accepts);
    }

    /** The `i`-th poll observation, and what the live path observes before it. */
    method ObserveNext(thread: Snapshot, ids: seq<string>, live: seq<Observation>, ghost cycle: Cycle, ghost i: nat)
      returns (events: Result<seq<Alert>, Refusal>)
      requires Valid() && i < |cycle.threads| && history == cycle.Polled(i)
      requires cycle.threads[i] == thread && ids == RequestsOf(thread.threadId, cycle.approvals) && cycle.live(i) == live
      modifies this
      ensures Valid()
      ensures if cycle.RefusedAt(i) then events.Err? && history == cycle.Met(i)
              else events.Ok? && history == cycle.Polled(i + 1) && Raises(cycle, i, events.value)
    {
      ObserveLive(live);
      events := ObserveSnapshot(thread, ids);
    }

    /** The body of the loop: one observation, and the dispatch of its alerts. */
    method ObserveAndDispatch(thread: Snapshot, ids: seq<string>, live: seq<Observation>, accepts: nat -> bool,
                              before: seq<Alert>, ghost cycle: Cycle, ghost i: nat)
      returns (dispatched: seq<Alert>, ok: bool, ghost observed: nat)
      requires Valid() && i < |cycle.threads| && cycle.threads[i] == thread && cycle.live(i) == live
      requires ids == RequestsOf(thread.threadId, cycle.approvals)
      requires InProgress(cycle, history, before, i) && AcceptsTo(accepts, |before|)
      modifies this
      ensures Valid() && AcceptsTo(accepts, |dispatched|)
      ensures ok ==> InProgress(cycle, history, dispatched, i + 1)
      ensures !ok ==> CycleEnds(cycle, accepts, history, dispatched, BrokenOff, observed)
    {
      var found := ObserveNext(thread, ids, live, cycle, i);
      if found.Err? {
        RefusalEnds(cycle, accepts, history, before, i);
        return before, false, i;
      }
      dispatched, ok := DispatchAll(found.value, accepts, before);
      observed := i + 1;
      if ok {
        ProgressStep(cycle, history, before, i, found.value);
      } else {
        FailureEnds(cycle, accepts, history, before, i, found.value, dispatched);
      }
    }

    /** The loop over the listed threads. */
    method ObserveAll(threads: seq<Snapshot>, approvals: seq<(string, string)>, live: nat -> seq<Observation>,
                      accepts: nat -> bool)
      returns (dispatched: seq<Alert>, outcome: CycleOutcome, ghost observed: nat)
      requires Valid()
      modifies this
      ensures Valid()
      ensures var cycle := Cycle(old(history), threads, approvals, live);
              CycleEnds(cycle, accepts, history, dispatched, outcome, observed)
    {
      dispatched, observed := [], |threads|;
      ghost var cycle := Cycle(history, threads, approvals, live);
      for i := 0 to |threads|
        invariant Valid() && InProgress(cycle, history, dispatched, i) && AcceptsTo(accepts, |dispatched|)
      {
        ghost var upto;
        var ok;
        dispatched, ok, upto :=
          ObserveAndDispatch(threads[i], RequestsOf(threads[i].threadId, approvals), live(i), accepts, dispatched, cycle, i);
        if !ok {
          return dispatched, BrokenOff, upto;
        }
      }
      outcome, observed := Finished(exists t :: t in threads && t.status != Idle), |threads|;
    }
  }

  /** The history after the live path has observed these snapshots; refused saves leave no trace in it. */
  ghost function AfterLive(history: seq<Observation>, live: seq<Observation>): seq<Observation>
    decreases |live|
  {
    if live == [] then history
    else
      var o, h := live[|live| - 1], AfterLive(history, live[..|live| - 1]);
      if SaveRefused(StateOf(o.snapshot.threadId, h), o) then h else h + [o]
  }

  /** What a cycle starts from and meets. */
  datatype Cycle = Cycle(before: seq<Observation>, threads: seq<Snapshot>, approvals: seq<(string, string)>,
                         live: nat -> seq<Observation>)
  {
    /** The history when the `i`-th poll observation takes the lock. */
    ghost function Met(i: nat): seq<Observation>
      requires i <= |threads|
      decreases i, 1
    {
      AfterLive(Polled(i), live(i))
    }

    /** The history after the first `i` poll observations, and the live ones between them. */
    ghost function Polled(i: nat): seq<Observation>
      requires i <= |threads|
      decreases i, 0
    {
      if i == 0 then before else Met(i - 1) + [PollObservation(threads[i - 1], approvals)]
    }

    /** The alerts that the first `i` poll observations raise. */
    ghost function Raised(i: nat): seq<Alert>
      requires i <= |threads|
    {
      if i == 0 then [] else Raised(i - 1) + StepAlerts(Met(i - 1), PollObservation(threads[i - 1], approvals))
    }

    /** The save of the `i`-th poll observation is refused. */
    ghost predicate RefusedAt(i: nat)
      requires i < |threads|
    {
      SaveRefused(StateOf(threads[i].threadId, Met(i)), PollObservation(threads[i], approvals))
    }
  }

  /** The `i`-th poll observation raises these alerts. */
  ghost predicate Raises(cycle: Cycle, i: nat, events: seq<Alert>)
    requires i < |cycle.threads|
  {
    cycle.Raised(i + 1) == cycle.Raised(i) + events
  }

  /** The first `n` dispatches of the cycle go through. */
  ghost predicate AcceptsTo(accepts: nat -> bool, n: nat) {
    forall k: nat :: k < n ==> accepts(k)
  }

  /** Every dispatch made has gone through, and when alerts were raised that were not dispatched, the next failed. */
  ghost predicate Accepted(accepts: nat -> bool, dispatched: seq<Alert>, raised: seq<Alert>, outcome: CycleOutcome) {
    AcceptsTo(accepts, |dispatched|) && (outcome.BrokenOff? && dispatched != raised ==> !accepts(|dispatched|))
  }

  ghost predicate InProgress(cycle: Cycle, history: seq<Observation>, dispatched: seq<Alert>, i: nat)
    requires i <= |cycle.threads|
  {
    history == cycle.Polled(i) && dispatched == cycle.Raised(i) && NoneRefused(cycle, i)
  }

  ghost predicate NoneRefused(cycle: Cycle, i: nat)
    requires i <= |cycle.threads|
  {
    forall j :: 0 <= j < i ==> !cycle.RefusedAt(j)
  }

  /** How a cycle ends: with this result, and stopped by a dispatch only when that has failed. */
  ghost predicate CycleEnds(cycle: Cycle, accepts: nat -> bool, history: seq<Observation>, dispatched: seq<Alert>,
                            outcome: CycleOutcome, observed: nat) {
    && CycleResult(cycle, history, dispatched, outcome, observed)
    && Accepted(accepts, dispatched, cycle.Raised(observed), outcome)
  }

  lemma RefusalEnds(cycle: Cycle, accepts: nat -> bool, history: seq<Observation>, dispatched: seq<Alert>, i: nat)
    requires i < |cycle.threads| && cycle.RefusedAt(i) && history == cycle.Met(i) && dispatched == cycle.Raised(i)
    requires NoneRefused(cycle, i) && AcceptsTo(accepts, |dispatched|)
    ensures CycleEnds(cycle, accepts, history, dispatched, BrokenOff, i)
  {
  }

  lemma FailureEnds(cycle: Cycle, accepts: nat -> bool, history: seq<Observation>, before: seq<Alert>, i: nat,
                    events: seq<Alert>, dispatched: seq<Alert>)
    requires i < |cycle.threads| && NoneRefused(cycle, i) && !cycle.RefusedAt(i) && history == cycle.Polled(i + 1)
    requires before == cycle.Raised(i) && Raises(cycle, i, events)
    requires dispatched <= before + events && dispatched != before + events
    requires AcceptsTo(accepts, |dispatched|) && !accepts(|dispatched|)
    ensures CycleEnds(cycle, accepts, history, dispatched, BrokenOff, i + 1)
  {
  }

  lemma ProgressStep(cycle: Cycle, history: seq<Observation>, before: seq<Alert>, i: nat, events: seq<Alert>)
    requires i < |cycle.threads| && NoneRefused(cycle, i) && !cycle.RefusedAt(i) && history == cycle.Polled(i + 1)
    requires before == cycle.Raised(i) && Raises(cycle, i, events)
    ensures InProgress(cycle, history, before + events, i + 1)
  {
  }

  /** The first `observed` threads were observed, the alerts dispatched are a prefix of those raised, a cycle that
      finished observed every thread and dispatched every alert, and one that did not was stopped by a refused
      save or by a dispatch that failed. */
  ghost predicate CycleResult(
    cycle: Cycle, history: seq<Observation>, dispatched: seq<Alert>, outcome: CycleOutcome, observed: nat)
  {
    && observed <= |cycle.threads|
    && NoneRefused(cycle, observed)
    && dispatched <= cycle.Raised(observed)
    && (outcome.Finished? ==>
        && observed == |cycle.threads| && history == cycle.Polled(observed) && dispatched == cycle.Raised(observed)
        && (outcome.anyActive <==> exists t :: t in cycle.threads && t.status != Idle))
    && (outcome.BrokenOff? ==>
        || (history == cycle.Polled(observed) && dispatched != cycle.Raised(observed))
        || (observed < |cycle.threads| && cycle.RefusedAt(observed)
            && history == cycle.Met(observed) && dispatched == cycle.Raised(observed)))
  }

  // ------------------------------------------------ ids across the threads

  lemma {:induction false} OfThreadIsOneThread(threadId: string, history: seq<Observation>)
    ensures OneThread(OfThread(threadId, history), threadId)
    ensures |OfThread(threadId, history)| <= |history|
    ensures forall o :: o in OfThread(threadId, history) ==> o in history
  {
    if history != [] {
      OfThreadIsOneThread(threadId, history[..|history| - 1]);
    }
  }

  lemma NoHistory(threadId: string)
    ensures LogOf(threadId, []) == []
  {
  }

  /** The alerts about one thread, out of all alerts of a history, are those of its lineage. */
  lemma AlertsOfThread(threadId: string, history: seq<Observation>)
    ensures Filter(AboutThread(threadId), AlertsOf([], history)) == LogOf(threadId, history)
  {
    AlertsExtendLineages(threadId, [], history);
    NoHistory(threadId);
    var before, log := LogOf(threadId, []), Filter(AboutThread(threadId), AlertsOf([], history));
    EmptyIsNeutral(history);
    EmptyIsNeutral(log);
    assert LogOf(threadId, history) == before + log == log;
  }

  lemma AlertNamesItself(history: seq<Observation>, a: Alert)
    requires SmallInputs(history) && a in AlertsOf([], history)
    ensures NamesItself(a)
  {
    AlertsOfThread(a.threadId, history);
    FilterMembers(AboutThread(a.threadId), AlertsOf([], history));
    OfThreadIsOneThread(a.threadId, history);
    RunNamesItself(OfThread(a.threadId, history));
  }

  /** Alerts that share an id are about one thread and of one kind. */
  ghost predicate IdsNameThreads(log: seq<Alert>) {
    forall a, b :: a in log && b in log && a.eventId == b.eventId ==> a.threadId == b.threadId && a.kind == b.kind
  }

  lemma NamedAlertsNameThreads(log: seq<Alert>)
    requires AllNameThemselves(log)
    ensures IdsNameThreads(log)
  {
    forall a, b | a in log && b in log && a.eventId == b.eventId
      ensures a.threadId == b.threadId && a.kind == b.kind
    {
      NamesDiffer(a, b);
    }
  }

  /** Over any interleaving of all threads, alerts of different threads never share an id. */
  lemma ThreadsNeverCollide(history: seq<Observation>)
    requires SmallInputs(history)
    ensures IdsNameThreads(AlertsOf([], history))
  {
    var log := AlertsOf([], history);
    forall a | a in log
      ensures NamesItself(a)
    {
      AlertNamesItself(history, a);
    }
    NamedAlertsNameThreads(log);
  }

  /** The cycle-numbered alerts that one observation raises. */
  function CycleAlertsAt(history: seq<Observation>, o: Observation): seq<Alert> {
    CycleAlerts(StateOf(o.snapshot.threadId, history), o)
  }

  /** The cycle-numbered alerts of all threads, in the order of the history. */
  function StoreCycleLog(history: seq<Observation>): seq<Alert> {
    if history == [] then []
    else
      var front := history[..|history| - 1];
      StoreCycleLog(front) + CycleAlertsAt(front, history[|history| - 1])
  }

  lemma CycleAlertsAmongAll(history: seq<Observation>, o: Observation)
    ensures forall a :: a in CycleAlertsAt(history, o) ==> a in StepAlerts(history, o) && a.threadId == o.snapshot.threadId
  {
  }

  lemma {:induction false} StoreCycleLogAmongAll(history: seq<Observation>)
    ensures forall a :: a in StoreCycleLog(history) ==> a in AlertsOf([], history)
  {
    if history != [] {
      var front, o := history[..|history| - 1], history[|history| - 1];
      StoreCycleLogAmongAll(front);
      CycleAlertsAmongAll(front, o);
      assert [] + front == front;
    }
  }

  lemma LineageCycleStep(threadId: string, front: seq<Observation>, o: Observation)
    ensures CycleLog(OfThread(threadId, front + [o]))
         == if o.snapshot.threadId == threadId then CycleLog(OfThread(threadId, front)) + CycleAlertsAt(front, o)
            else CycleLog(OfThread(threadId, front))
  {
    OfThreadStep(threadId, front, o);
    CycleLogSnoc(OfThread(threadId, front), o);
  }

  lemma FilterCycleAlerts(threadId: string, log: seq<Alert>, front: seq<Observation>, o: Observation)
    ensures Filter(AboutThread(threadId), log + CycleAlertsAt(front, o))
         == if o.snapshot.threadId == threadId then Filter(AboutThread(threadId), log) + CycleAlertsAt(front, o)
            else Filter(AboutThread(threadId), log)
  {
    CycleAlertsAmongAll(front, o);
    FilterAppend(AboutThread(threadId), log, CycleAlertsAt(front, o));
    if o.snapshot.threadId == threadId {
      FilterAll(AboutThread(threadId), CycleAlertsAt(front, o));
    } else {
      FilterNone(AboutThread(threadId), CycleAlertsAt(front, o));
    }
  }

  lemma {:induction false} StoreCycleLogOfThread(threadId: string, history: seq<Observation>)
    ensures Filter(AboutThread(threadId), StoreCycleLog(history)) == CycleLog(OfThread(threadId, history))
  {
    if history != [] {
      var front, o := history[..|history| - 1], history[|history| - 1];
      assert history == front + [o];
      StoreCycleLogOfThread(threadId, front);
      LineageCycleStep(threadId, front, o);
      FilterCycleAlerts(threadId, StoreCycleLog(front), front, o);
    }
  }

  /** Where an element that passes comes out of the filter. */
  lemma FilterPosition(p: Alert -> bool, s: seq<Alert>, i: nat)
    requires i < |s| && p(s[i])
    ensures |Filter(p, s[..i])| < |Filter(p, s)| && Filter(p, s)[|Filter(p, s[..i])|] == s[i]
  {
    var tail := s[i..];
    assert tail == [s[i]] + s[i + 1..];
    FilterCons(p, s[i], s[i + 1..]);
    assert s == s[..i] + tail;
    FilterAppend(p, s[..i], tail);
  }

  /** Distinct ids among the filtered elements are distinct ids among the elements that pass. */
  lemma DistinctWithinFilter(p: Alert -> bool, s: seq<Alert>, i: nat, j: nat)
    requires i < j < |s| && p(s[i]) && p(s[j]) && DistinctIds(Filter(p, s))
    ensures s[i].eventId != s[j].eventId
  {
    FilterPosition(p, s, i);
    FilterPosition(p, s, j);
    FilterPosition(p, s[..j], i);
    assert s[..j][..i] == s[..i];
  }

  /** Over the whole store, all cycle-numbered alerts have different ids. */
  lemma StoreCycleAlertsAreDistinct(history: seq<Observation>)
    requires SmallInputs(history)
    ensures DistinctIds(StoreCycleLog(history))
  {
    var log := StoreCycleLog(history);
    StoreCycleLogAmongAll(history);
    ThreadsNeverCollide(history);
    forall i, j | 0 <= i < j < |log|
      ensures log[i].eventId != log[j].eventId
    {
      assert log[i] in log && log[j] in log;
      if log[i].threadId == log[j].threadId {
        SameThreadDistinct(history, i, j);
      }
    }
  }

  lemma SameThreadDistinct(history: seq<Observation>, i: nat, j: nat)
    requires SmallInputs(history) && i < j < |StoreCycleLog(history)|
    requires StoreCycleLog(history)[i].threadId == StoreCycleLog(history)[j].threadId
    ensures StoreCycleLog(history)[i].eventId != StoreCycleLog(history)[j].eventId
  {
    var log := StoreCycleLog(history);
    var t := log[i].threadId;
    StoreCycleLogAmongAll(history);
    AlertNamesItself(history, log[i]);
    OfThreadIsOneThread(t, history);
    CycleAlertsAreDistinct(OfThread(t, history), t);
    StoreCycleLogOfThread(t, history);
    DistinctWithinFilter(AboutThread(t), log, i, j);
  }
}
