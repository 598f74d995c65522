/**
 The client's retry loop on top of the server's protocol: all attempts carry one dedupe key, and the network
 may lose or fail any reply, but it reports an acceptance only when the server has answered with one.
 */
module MessageExchange {
  import opened MessageDedupe
  import opened MessageRetry
  import opened MessageAnswers

  /** At some point of the run to `t`, request `r` under `key` had been answered with an acceptance. */
  ghost predicate AcceptedDuring(steps: seq<Step>, t: State, r: RequestId, key: Key) {
    exists n: nat, u :: n <= |steps| && AcceptedAt(steps, n, u, t, r, key)
  }

  ghost predicate AcceptedAt(steps: seq<Step>, n: nat, u: State, t: State, r: RequestId, key: Key)
    requires n <= |steps|
  {
    && Run(INITIAL, steps[..n], u) && Run(u, steps[n..], t)
    && r in u.requests && u.requests[r] == Answered(key, true)
  }

  /** Attempt `i` is request `ids(i)`, and its reply is an acceptance only if the server gave one. */
  ghost predicate Carries(network: nat -> Reply, ids: nat -> RequestId, steps: seq<Step>, t: State, key: Key) {
    forall i: nat :: Accepted(network(i)) ==> AcceptedDuring(steps, t, ids(i), key)
  }

  lemma {:induction false} LogOnlyGrows(s: State, steps: seq<Step>, t: State)
    requires Run(s, steps, t)
    ensures s.log <= t.log && s.completions <= t.completions
    decreases |steps|
  {
    if steps != [] {
      LogOnlyGrows(Next(s, steps[0]), steps[1..], t);
    }
  }

  // ------------------------------------------------------- counting deliveries

  function Deliveries(log: seq<LogEntry>, key: Key): nat {
    if log == [] then 0
    else Deliveries(log[..|log| - 1], key) + if log[|log| - 1] == Success(key) then 1 else 0
  }

  ghost predicate NeverEvicted(log: seq<LogEntry>, key: Key) {
    forall m :: 0 <= m < |log| && log[m].Evicted? ==> key !in log[m].keys
  }

  lemma AtMostOncePrefix(log: seq<LogEntry>, n: nat)
    requires n <= |log| && AtMostOnce(log)
    ensures AtMostOnce(log[..n])
  {
    var front := log[..n];
    forall i, j | 0 <= i < j < |front| && front[i].Success? && front[i] == front[j]
      ensures exists m :: i < m < j && front[m].Evicted? && front[i].key in front[m].keys
    {
      assert log[i] == log[j];
      var m :| i < m < j && log[m].Evicted? && log[i].key in log[m].keys;
      assert front[m] == log[m];
    }
  }

  lemma {:induction false} DeliveriesCounted(log: seq<LogEntry>, key: Key)
    ensures Deliveries(log, key) > 0 <==> Success(key) in log
    ensures AtMostOnce(log) && NeverEvicted(log, key) ==> Deliveries(log, key) <= 1
  {
    if log != [] {
      var front, last := log[..|log| - 1], log[|log| - 1];
      assert log == front + [last];
      DeliveriesCounted(front, key);
      if AtMostOnce(log) && NeverEvicted(log, key) {
        AtMostOncePrefix(log, |front|);
        assert NeverEvicted(front, key);
        assert last == Success(key) ==> forall i :: 0 <= i < |front| ==> log[i] == front[i] != log[|front|];
      }
    }
  }

  /** How many of the steps are successful deliveries of tasks of the key. */
  function DeliverySteps(steps: seq<Step>, tasks: map<NotifyId, Task>, key: Key): nat {
    if steps == [] then 0
    else
      var last := steps[|steps| - 1];
      DeliverySteps(steps[..|steps| - 1], tasks, key)
      + if last.Deliver? && last.ok && last.n in tasks && tasks[last.n].key == key then 1 else 0
  }

  /** A task that has delivered nothing does not matter, and tasks keep their keys. */
  lemma {:induction false} DeliveryStepsKept(past: seq<Step>, before: map<NotifyId, Task>, after: map<NotifyId, Task>, key: Key)
    requires forall n, ok :: Deliver(n, ok) in past ==> n in before && n in after && after[n].key == before[n].key
    ensures DeliverySteps(past, after, key) == DeliverySteps(past, before, key)
  {
    if past != [] {
      var last := past[|past| - 1];
      assert last in past;
      assert last.Deliver? ==> last == Deliver(last.n, last.ok);
      DeliveryStepsKept(past[..|past| - 1], before, after, key);
    }
  }

  lemma DeliveriesSnoc(log: seq<LogEntry>, entry: LogEntry, key: Key)
    ensures Deliveries(log + [entry], key) == Deliveries(log, key) + if entry == Success(key) then 1 else 0
  {
    assert (log + [entry])[..|log|] == log;
  }

  ghost predicate Counted(past: seq<Step>, s: State, key: Key) {
    Inv(s) && Traced(past, s) && Deliveries(s.log, key) == DeliverySteps(past, s.tasks, key)
  }

  lemma DeliveryStepsSnoc(past: seq<Step>, step: Step, tasks: map<NotifyId, Task>, key: Key)
    ensures DeliverySteps(past + [step], tasks, key)
         == DeliverySteps(past, tasks, key)
            + if step.Deliver? && step.ok && step.n in tasks && tasks[step.n].key == key then 1 else 0
  {
    assert (past + [step])[..|past|] == past;
  }

  /** A step adds to the log as it adds to the steps. */
  lemma LogSnoc(s: State, step: Step, key: Key)
    requires Enabled(s, step)
    ensures Deliveries(Next(s, step).log, key)
         == Deliveries(s.log, key) + if step.Deliver? && step.ok && s.tasks[step.n].key == key then 1 else 0
  {
    var t := Next(s, step);
    if t.log != s.log {
      assert t.log == s.log + [t.log[|s.log|]];
      DeliveriesSnoc(s.log, t.log[|s.log|], key);
    }
  }

  lemma TasksKeepKeys(s: State, step: Step)
    requires Enabled(s, step)
    ensures forall n :: n in s.tasks ==> n in Next(s, step).tasks && Next(s, step).tasks[n].key == s.tasks[n].key
  {
  }

  lemma PastKeepsCount(past: seq<Step>, s: State, step: Step, key: Key)
    requires Enabled(s, step) && TasksTraced(past, s)
    ensures DeliverySteps(past, Next(s, step).tasks, key) == DeliverySteps(past, s.tasks, key)
  {
    TasksKeepKeys(s, step);
    DeliveryStepsKept(past, s.tasks, Next(s, step).tasks, key);
  }

  lemma StepCounts(past: seq<Step>, s: State, step: Step, key: Key)
    requires Enabled(s, step) && TasksTraced(past, s) && Deliveries(s.log, key) == DeliverySteps(past, s.tasks, key)
    ensures Deliveries(Next(s, step).log, key) == DeliverySteps(past + [step], Next(s, step).tasks, key)
  {
    TasksKeepKeys(s, step);
    LogSnoc(s, step, key);
    DeliveryStepsSnoc(past, step, Next(s, step).tasks, key);
    PastKeepsCount(past, s, step, key);
  }

  lemma CountStep(past: seq<Step>, s: State, step: Step, key: Key)
    requires Counted(past, s, key) && Enabled(s, step)
    ensures Counted(past + [step], Next(s, step), key)
  {
    StepCounts(past, s, step, key);
    StepKeepsInv(s, step);
    StepKeepsTraced(past, s, step);
  }

  lemma {:induction false} LogCountsSteps(past: seq<Step>, s: State, steps: seq<Step>, t: State, key: Key)
    requires Counted(past, s, key) && Run(s, steps, t)
    ensures Deliveries(t.log, key) == DeliverySteps(past + steps, t.tasks, key)
    decreases |steps|
  {
    if steps == [] {
      assert past + steps == past;
    } else {
      CountStep(past, s, steps[0], key);
      LogCountsSteps(past + [steps[0]], Next(s, steps[0]), steps[1..], t, key);
      assert past + [steps[0]] + steps[1..] == past + steps;
    }
  }

  /** What the log counts are the deliveries among the steps. */
  lemma LogCountsDeliveries(steps: seq<Step>, t: State, key: Key)
    requires Run(INITIAL, steps, t)
    ensures Deliveries(t.log, key) == DeliverySteps(steps, t.tasks, key)
  {
    InitialInv();
    LogCountsSteps([], INITIAL, steps, t, key);
    assert [] + steps == steps;
  }

  // -------------------------------------------------------------- main results

  /**
   When the client's send succeeds, the message was delivered; and as long as its key has not been evicted it was
   delivered exactly once, however many attempts were made and whatever else went on.  When the send fails it was
   still delivered at most once.
   */
  lemma SentMeansDeliveredOnce(network: nat -> Reply, ids: nat -> RequestId, steps: seq<Step>, t: State, key: Key)
    requires Run(INITIAL, steps, t) && Carries(network, ids, steps, t, key)
    ensures SucceedsWithin(network, |RETRY_DELAYS_MS| + 1) ==> DeliverySteps(steps, t.tasks, key) > 0
    ensures NeverEvicted(t.log, key) ==> DeliverySteps(steps, t.tasks, key) <= 1
    ensures AtMostOnce(t.log)
  {
    LogCountsDeliveries(steps, t, key);
    DeliveryIsIdempotent(steps, t);
    DeliveriesCounted(t.log, key);
    if SucceedsWithin(network, |RETRY_DELAYS_MS| + 1) {
      var i: nat :| i < |RETRY_DELAYS_MS| + 1 && Accepted(network(i)) && forall j: nat :: j < i ==> Transient(network(j));
      assert AcceptedDuring(steps, t, ids(i), key);
      var n: nat, u :| n <= |steps| && AcceptedAt(steps, n, u, t, ids(i), key);
      DeliveryIsIdempotent(steps[..n], u);
      assert Success(key) in u.log;
      LogOnlyGrows(u, steps[n..], t);
    }
  }

  ghost predicate NothingEvicted(log: seq<LogEntry>) {
    forall m :: 0 <= m < |log| && log[m].Evicted? ==> log[m].keys == {}
  }

  lemma NothingEvictedStep(s: State, step: Step)
    requires Inv(s) && Enabled(s, step) && NothingEvicted(s.log)
    requires |Next(s, step).completions| <= MAX_ENTRIES
    ensures NothingEvicted(Next(s, step).log)
  {
    if step.Settle? && s.tasks[step.n].phase.ok {
      var key := s.tasks[step.n].key;
      assert s.cache.entries[key] == InFlight(step.n);
      CompleteKeepsFifo(s.cache, key);
      assert |s.cache.order| < MAX_ENTRIES;
      assert CompleteKey(s.cache, key).entries.Keys == s.cache.entries.Keys;
    }
  }

  /** Up to the 1024th completion no key is ever evicted. */
  lemma {:induction false} FirstCompletionsStay(s: State, steps: seq<Step>, t: State)
    requires Inv(s) && NothingEvicted(s.log) && Run(s, steps, t) && |t.completions| <= MAX_ENTRIES
    ensures NothingEvicted(t.log)
    decreases |steps|
  {
    if steps != [] {
      var u := Next(s, steps[0]);
      LogOnlyGrows(u, steps[1..], t);
      StepKeepsInv(s, steps[0]);
      NothingEvictedStep(s, steps[0]);
      FirstCompletionsStay(u, steps[1..], t);
    }
  }

  /** So among the first 1024 completions a successful send is one delivery, with no further condition. */
  lemma SentIsOneDelivery(network: nat -> Reply, ids: nat -> RequestId, steps: seq<Step>, t: State, key: Key)
    requires Run(INITIAL, steps, t) && Carries(network, ids, steps, t, key)
    requires |t.completions| <= MAX_ENTRIES && SucceedsWithin(network, |RETRY_DELAYS_MS| + 1)
    ensures DeliverySteps(steps, t.tasks, key) == 1
  {
    InitialInv();
    FirstCompletionsStay(INITIAL, steps, t);
    SentMeansDeliveredOnce(network, ids, steps, t, key);
  }

  // ------------------------------------------------------------- the converse

  /** Each attempt is a request of its own for the key, nobody else sends the key, and no attempt is given up. */
  ghost predicate OnlyAttempts(steps: seq<Step>, ids: nat -> RequestId, attempts: nat, key: Key) {
    && (forall r :: Arrive(r, key) in steps ==> exists i: nat :: i < attempts && r == ids(i))
    && (forall i: nat :: i < attempts ==> Drop(ids(i)) !in steps)
  }

  /** Every attempt was answered, and the network has lost no answer. */
  ghost predicate Lossless(network: nat -> Reply, ids: nat -> RequestId, attempts: nat, t: State, key: Key) {
    forall i: nat :: i < attempts ==> ids(i) in t.requests && t.requests[ids(i)] == Answered(key, Accepted(network(i)))
  }

  lemma AcceptedAttempt(network: nat -> Reply, ids: nat -> RequestId, attempts: nat, steps: seq<Step>, t: State, key: Key,
                        n: NotifyId) returns (i: nat)
    requires Run(INITIAL, steps, t) && OnlyAttempts(steps, ids, attempts, key) && Lossless(network, ids, attempts, t, key)
    requires n in t.tasks && t.tasks[n].key == key && Deliver(n, true) in steps
    ensures i < attempts && Accepted(network(i))
  {
    var r := OwnersAreTold(steps, t, n);
    i :| i < attempts && r == ids(i);
    assert t.requests[r] == Answered(key, Accepted(network(i)));
  }

  /** Over a network that loses nothing, the send succeeds exactly when the message was delivered. */
  lemma DeliveredMeansSent(network: nat -> Reply, ids: nat -> RequestId, attempts: nat, steps: seq<Step>, t: State, key: Key)
    requires Run(INITIAL, steps, t) && Attempts(network, attempts)
    requires OnlyAttempts(steps, ids, attempts, key) && Lossless(network, ids, attempts, t, key)
    ensures SucceedsWithin(network, |RETRY_DELAYS_MS| + 1)
       <==> exists n :: n in t.tasks && t.tasks[n].key == key && Deliver(n, true) in steps
  {
    if n :| n in t.tasks && t.tasks[n].key == key && Deliver(n, true) in steps {
      var i := AcceptedAttempt(network, ids, attempts, steps, t, key, n);
      assert i == attempts - 1;
    }
    if i: nat :| i < 3 && Accepted(network(i)) && forall j: nat :: j < i ==> Transient(network(j)) {
      assert i < attempts;
      AnswersTellDeliveries(steps, t, ids(i));
    }
  }
}
