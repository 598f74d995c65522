/**
 Idempotent message delivery: the claim, complete and fail critical sections over the shared
 dedupe cache, and the protocol that concurrent requests and delivery tasks run on top of them.

 A delivery task is named by the `Notify` it owns.  Claiming as owner and spawning the task is one
 step, since no await lies between them.  A `Notified` future created before `notify_waiters` is
 woken by it even if it was never polled, so `Waiting` needs no registration step.
 */
module MessageDedupe {
  import opened Sequences
  import opened Text

  const MAX_ENTRIES: nat := 1024

  type Key = string
  type NotifyId = nat
  type RequestId = nat

  // ---------------------------------------------------------------- the key

  function DedupeKey(device: string, thread: string, client: string): Key {
    device + "\n" + thread + "\n" + client
  }

  /** The client id, which never has a line feed, is recovered from the key; device and thread up to where their
      joint text splits. */
  lemma KeyIdentifies(d1: string, t1: string, c1: string, d2: string, t2: string, c2: string)
    requires '\n' !in c1 && '\n' !in c2
    ensures DedupeKey(d1, t1, c1) == DedupeKey(d2, t2, c2)
            <==> c1 == c2 && d1 + "\n" + t1 == d2 + "\n" + t2
    ensures DedupeKey(d1, t1, c1) == DedupeKey(d2, t2, c2) && (d1 == d2 || ('\n' !in d1 && '\n' !in d2))
            ==> d1 == d2 && t1 == t2 && c1 == c2
  {
    if DedupeKey(d1, t1, c1) == DedupeKey(d2, t2, c2) {
      SplitAtLast(d1 + "\n" + t1, c1, d2 + "\n" + t2, c2, '\n');
      if d1 == d2 {
        assert t1 == (d1 + "\n" + t1)[|d1| + 1..] == t2;
      } else if '\n' !in d1 && '\n' !in d2 {
        SplitAtFirst(d1, t1, d2, t2, '\n');
      }
    }
  }

  /** One of the ids, closed by a line feed, starts the other. */
  predicate DevicesOverlap(d1: string, d2: string) {
    d1 + "\n" <= d2 || d2 + "\n" <= d1
  }

  lemma BoundaryMoves(d1: string, d2: string, client: string)
    requires d1 + "\n" <= d2
    ensures DedupeKey(d1, d2[|d1| + 1..] + "\n", client) == DedupeKey(d2, "", client)
  {
    assert d2 == d1 + "\n" + d2[|d1| + 1..];
  }

  lemma SharedKeyOverlaps(d1: string, t1: string, d2: string, t2: string, client: string)
    requires '\n' !in client && DedupeKey(d1, t1, client) == DedupeKey(d2, t2, client)
    requires |d1| <= |d2|
    ensures d1 == d2 || d1 + "\n" <= d2
  {
    KeyIdentifies(d1, t1, client, d2, t2, client);
    var whole := d1 + "\n" + t1;
    assert whole == d2 + "\n" + t2;
    assert d1 == whole[..|d1|] == d2[..|d1|];
    assert |d1| < |d2| ==> d2[|d1|] == whole[|d1|] == '\n';
  }

  /** Two devices can share a key, under some threads, exactly when their ids overlap so. */
  lemma DevicesCollideExactly(d1: string, d2: string, client: string)
    requires '\n' !in client && d1 != d2
    ensures (exists t1, t2 :: DedupeKey(d1, t1, client) == DedupeKey(d2, t2, client)) <==> DevicesOverlap(d1, d2)
  {
    if d1 + "\n" <= d2 {
      BoundaryMoves(d1, d2, client);
    } else if d2 + "\n" <= d1 {
      BoundaryMoves(d2, d1, client);
    }
    if t1, t2 :| DedupeKey(d1, t1, client) == DedupeKey(d2, t2, client) {
      if |d1| <= |d2| {
        SharedKeyOverlaps(d1, t1, d2, t2, client);
      } else {
        SharedKeyOverlaps(d2, t2, d1, t1, client);
      }
    }
  }

  /** Such a pair: a line feed moves the boundary. */
  lemma KeyCollision()
    ensures DedupeKey("a", "b\nc", "m") == DedupeKey("a\nb", "c", "m")
  {
    assert DedupeKey("a", "b\nc", "m") == "a\nb\nc\nm";
    assert DedupeKey("a\nb", "c", "m") == "a\nb\nc\nm";
  }

  // -------------------------------------------------- the critical sections

  datatype Entry = InFlight(notify: NotifyId) | Completed
  datatype Cache = Cache(entries: map<Key, Entry>, order: seq<Key>)
  datatype Claim = Owner(notify: NotifyId) | AlreadyCompleted | Wait(on: NotifyId)

  predicate IsCompleted(c: Cache, key: Key) {
    key in c.entries && c.entries[key].Completed?
  }

  function ClaimKey(c: Cache, key: Key, newId: NotifyId): (Claim, Cache) {
    if key !in c.entries then (Owner(newId), c.(entries := c.entries[key := InFlight(newId)]))
    else match c.entries[key]
      case Completed => (AlreadyCompleted, c)
      case InFlight(n) => (Wait(n), c)
  }

  function DropOldest(c: Cache): Cache
    requires c.order != []
  {
    Cache(if IsCompleted(c, c.order[0]) then c.entries - {c.order[0]} else c.entries, c.order[1..])
  }

  function Evict(c: Cache): Cache
    decreases |c.order|
  {
    if |c.order| <= MAX_ENTRIES then c else Evict(DropOldest(c))
  }

  function CompleteKey(c: Cache, key: Key): Cache {
    Evict(Cache(c.entries[key := Completed], c.order + [key]))
  }

  function FailKey(c: Cache, key: Key): Cache {
    c.(entries := c.entries - {key})
  }

  /** The shared cache, updated in place under its mutex. */
  class MessageDedupeCache {
    var entries: map<Key, Entry>
    var completedOrder: seq<Key>

    constructor ()
      ensures Value() == Cache(map[], [])
    {
      entries := map[];
      completedOrder := [];
    }

    function Value(): Cache
      reads this
    {
      Cache(entries, completedOrder)
    }

    /** One pass of the claim loop, up to the point where it would await the owner. */
    method ClaimOnce(key: Key, newId: NotifyId) returns (claim: Claim)
      modifies this
      ensures (claim, Value()) == ClaimKey(old(Value()), key, newId)
    {
      if key in entries {
        match entries[key] {
          case Completed => return AlreadyCompleted;
          case InFlight(n) => return Wait(n);
        }
      }
      entries := entries[key := InFlight(newId)];
      claim := Owner(newId);
    }

    method Complete(key: Key)
      modifies this
      ensures Value() == CompleteKey(old(Value()), key)
    {
      entries := entries[key := Completed];
      completedOrder := completedOrder + [key];
      while |completedOrder| > MAX_ENTRIES
        invariant Evict(Value()) == CompleteKey(old(Value()), key)
        decreases |completedOrder|
      {
        var expired := completedOrder[0];
        completedOrder := completedOrder[1..];
        if expired in entries && entries[expired].Completed? {
          entries := entries - {expired};
        }
      }
    }

    method Fail(key: Key)
      modifies this
      ensures Value() == FailKey(old(Value()), key)
    {
      entries := entries - {key};
    }
  }

  // ------------------------------------------------------------- the FIFO

  /** The completion queue lists exactly the completed keys, each once, and stays within its bound. */
  ghost predicate FifoExact(c: Cache) {
    && NoDup(c.order)
    && |c.order| <= MAX_ENTRIES
    && forall k :: k in c.order <==> IsCompleted(c, k)
  }

  /** Completing an in-flight key evicts the oldest key exactly when the queue was full, and nothing else. */
  lemma CompleteKeepsFifo(c: Cache, key: Key)
    requires FifoExact(c)
    requires key in c.entries && c.entries[key].InFlight?
    ensures FifoExact(CompleteKey(c, key))
    ensures CompleteKey(c, key).order == LastN(c.order + [key], MAX_ENTRIES)
    ensures CompleteKey(c, key).entries
            == c.entries[key := Completed] - (if |c.order| == MAX_ENTRIES then {c.order[0]} else {})
  {
    var pushed := Cache(c.entries[key := Completed], c.order + [key]);
    assert key !in c.order;
    assert NoDup(pushed.order);
    if |c.order| == MAX_ENTRIES {
      assert c.order[0] in c.order && pushed.order[0] == c.order[0] != key;
      assert IsCompleted(pushed, pushed.order[0]);
      var dropped := DropOldest(pushed);
      assert Evict(pushed) == dropped;
      assert dropped.order == c.order[1..] + [key];
      forall k ensures k in dropped.order <==> IsCompleted(dropped, k) {
        assert k in c.order[1..] <==> k in c.order && k != c.order[0];
      }
    } else {
      assert Evict(pushed) == pushed;
      assert c.entries[key := Completed] - {} == c.entries[key := Completed];
      forall k ensures k in pushed.order <==> IsCompleted(pushed, k) {
        assert k in pushed.order <==> k in c.order || k == key;
      }
    }
  }

  // ----------------------------------------------------------- the protocol

  datatype Phase = Delivering | Delivered(ok: bool) | Settled(ok: bool) | Notified(ok: bool)
  datatype Task = Task(key: Key, phase: Phase)

  datatype Request =
    | Claiming(key: Key)
    | Waiting(key: Key, on: NotifyId)
    | Awaiting(key: Key, task: NotifyId)
    | Answered(key: Key, accepted: bool)

  /** What an observer of the adapter and of the cache would write down. */
  datatype LogEntry = Success(key: Key) | Evicted(keys: set<Key>)

  datatype State = State(
    cache: Cache,
    tasks: map<NotifyId, Task>,
    requests: map<RequestId, Request>,
    log: seq<LogEntry>,
    completions: seq<Key>)

  datatype Step =
    | Arrive(r: RequestId, key: Key)
    | ClaimStep(r: RequestId, newId: NotifyId)
    | Deliver(n: NotifyId, ok: bool)
    | Settle(n: NotifyId)
    | Notify(n: NotifyId)
    | Join(r: RequestId)
    | Drop(r: RequestId)

  const INITIAL := State(Cache(map[], []), map[], map[], [], [])

  predicate Enabled(s: State, step: Step) {
    match step
    case Arrive(r, key) => r !in s.requests
    case ClaimStep(r, newId) => r in s.requests && s.requests[r].Claiming? && newId !in s.tasks
    case Deliver(n, ok) => n in s.tasks && s.tasks[n].phase == Delivering
    case Settle(n) => n in s.tasks && s.tasks[n].phase.Delivered?
    case Notify(n) => n in s.tasks && s.tasks[n].phase.Settled?
    case Join(r) => r in s.requests && s.requests[r].Awaiting?
                    && s.requests[r].task in s.tasks && s.tasks[s.requests[r].task].phase.Notified?
    case Drop(r) => r in s.requests
  }

  function Woken(q: Request, n: NotifyId): Request {
    if q.Waiting? && q.on == n then Claiming(q.key) else q
  }

  function Next(s: State, step: Step): State
    requires Enabled(s, step)
  {
    match step
    case Arrive(r, key) => s.(requests := s.requests[r := Claiming(key)])
    case ClaimStep(r, newId) =>
      var key := s.requests[r].key;
      var (claim, cache) := ClaimKey(s.cache, key, newId);
      (match claim
       case Owner(n) => s.(cache := cache, tasks := s.tasks[n := Task(key, Delivering)],
                           requests := s.requests[r := Awaiting(key, n)])
       case AlreadyCompleted => s.(requests := s.requests[r := Answered(key, true)])
       case Wait(n) => s.(requests := s.requests[r := Waiting(key, n)]))
    case Deliver(n, ok) =>
      s.(tasks := s.tasks[n := s.tasks[n].(phase := Delivered(ok))],
         log := if ok then s.log + [Success(s.tasks[n].key)] else s.log)
    case Settle(n) =>
      var Task(key, phase) := s.tasks[n];
      var cache := if phase.ok then CompleteKey(s.cache, key) else FailKey(s.cache, key);
      s.(cache := cache,
         tasks := s.tasks[n := Task(key, Settled(phase.ok))],
         log := if phase.ok then s.log + [Evicted(s.cache.entries.Keys - cache.entries.Keys)] else s.log,
         completions := if phase.ok then s.completions + [key] else s.completions)
    case Notify(n) =>
      s.(tasks := s.tasks[n := s.tasks[n].(phase := Notified(s.tasks[n].phase.ok))],
         requests := map r | r in s.requests :: Woken(s.requests[r], n))
    case Join(r) =>
      s.(requests := s.requests[r := Answered(s.requests[r].key, s.tasks[s.requests[r].task].phase.ok)])
    case Drop(r) => s.(requests := s.requests - {r})
  }

  ghost predicate Run(s: State, steps: seq<Step>, t: State)
    decreases |steps|
  {
    if steps == [] then s == t
    else Enabled(s, steps[0]) && Run(Next(s, steps[0]), steps[1..], t)
  }

  // ------------------------------------------------------- reading the log

  /** A success of `key` that no later eviction has forgotten. */
  ghost predicate Remembered(log: seq<LogEntry>, key: Key) {
    exists i :: 0 <= i < |log| && log[i] == Success(key) && NotEvictedAfter(log, key, i)
  }

  ghost predicate NotEvictedAfter(log: seq<LogEntry>, key: Key, i: int) {
    forall m :: i < m < |log| && 0 <= m && log[m].Evicted? ==> key !in log[m].keys
  }

  /** Between two successes of one key the cache has forgotten that key. */
  ghost predicate AtMostOnce(log: seq<LogEntry>) {
    forall i, j :: 0 <= i < j < |log| && log[i].Success? && log[i] == log[j]
      ==> exists m :: i < m < j && log[m].Evicted? && log[i].key in log[m].keys
  }

  lemma LogSuccess(log: seq<LogEntry>, key: Key)
    ensures forall k :: Remembered(log + [Success(key)], k) <==> k == key || Remembered(log, k)
    ensures AtMostOnce(log) && !Remembered(log, key) ==> AtMostOnce(log + [Success(key)])
  {
    var log' := log + [Success(key)];
    forall k ensures Remembered(log', k) <==> k == key || Remembered(log, k) {
      if k == key {
        assert log'[|log|] == Success(key) && NotEvictedAfter(log', key, |log|);
      }
      if Remembered(log, k) {
        var i :| 0 <= i < |log| && log[i] == Success(k) && NotEvictedAfter(log, k, i);
        assert log'[i] == Success(k) && NotEvictedAfter(log', k, i);
      }
      if k != key && Remembered(log', k) {
        var i :| 0 <= i < |log'| && log'[i] == Success(k) && NotEvictedAfter(log', k, i);
        assert forall m :: 0 <= m < |log| ==> log'[m] == log[m];
        assert log[i] == Success(k) && NotEvictedAfter(log, k, i);
      }
    }
    if AtMostOnce(log) && !Remembered(log, key) {
      forall i, j | 0 <= i < j < |log'| && log'[i].Success? && log'[i] == log'[j]
        ensures exists m :: i < m < j && log'[m].Evicted? && log'[i].key in log'[m].keys
      {
        if j == |log| {
          assert log[i] == Success(key) && !NotEvictedAfter(log, key, i);
          var m :| i < m < |log| && log[m].Evicted? && key in log[m].keys;
          assert log'[m] == log[m];
        } else {
          assert log[i] == log[j];
          var m :| i < m < j && log[m].Evicted? && log[i].key in log[m].keys;
          assert log'[m] == log[m];
        }
      }
    }
  }

  lemma LogEviction(log: seq<LogEntry>, keys: set<Key>)
    ensures forall k :: Remembered(log + [Evicted(keys)], k) <==> k !in keys && Remembered(log, k)
    ensures AtMostOnce(log) ==> AtMostOnce(log + [Evicted(keys)])
  {
    var log' := log + [Evicted(keys)];
    assert forall m :: 0 <= m < |log| ==> log'[m] == log[m];
    forall k ensures Remembered(log', k) <==> k !in keys && Remembered(log, k) {
      if k !in keys && Remembered(log, k) {
        var i :| 0 <= i < |log| && log[i] == Success(k) && NotEvictedAfter(log, k, i);
        assert log'[i] == Success(k) && NotEvictedAfter(log', k, i);
      }
      if Remembered(log', k) {
        var i :| 0 <= i < |log'| && log'[i] == Success(k) && NotEvictedAfter(log', k, i);
        assert log'[|log|].Evicted?;
        assert log[i] == Success(k) && NotEvictedAfter(log, k, i);
      }
    }
    if AtMostOnce(log) {
      forall i, j | 0 <= i < j < |log'| && log'[i].Success? && log'[i] == log'[j]
        ensures exists m :: i < m < j && log'[m].Evicted? && log'[i].key in log'[m].keys
      {
        assert log[i] == log[j];
        var m :| i < m < j && log[m].Evicted? && log[i].key in log[m].keys;
        assert log'[m] == log[m];
      }
    }
  }

  // ---------------------------------------------------------- the invariant

  predicate Live(t: Task) {
    t.phase == Delivering || t.phase.Delivered?
  }

  /** In-flight entries and unsettled tasks name each other. */
  ghost predicate OwnersMatch(s: State) {
    && (forall k | k in s.cache.entries && s.cache.entries[k].InFlight? ::
          && s.cache.entries[k].notify in s.tasks
          && s.tasks[s.cache.entries[k].notify].key == k
          && Live(s.tasks[s.cache.entries[k].notify]))
    && (forall n | n in s.tasks && Live(s.tasks[n]) ::
          && s.tasks[n].key in s.cache.entries
          && s.cache.entries[s.tasks[n].key] == InFlight(n))
  }

  /** Whoever waits holds a notification its owner has still to send. */
  ghost predicate WaitersCovered(s: State) {
    forall r :: r in s.requests ==>
      match s.requests[r]
      case Waiting(k, n) => n in s.tasks && s.tasks[n].key == k && !s.tasks[n].phase.Notified?
      case Awaiting(k, n) => n in s.tasks && s.tasks[n].key == k
      case _ => true
  }

  /** A success is remembered exactly while it is on its way into the cache or still in it. */
  ghost predicate LogMatches(s: State) {
    forall k :: Remembered(s.log, k) <==>
      IsCompleted(s.cache, k) || exists n :: n in s.tasks && s.tasks[n] == Task(k, Delivered(true))
  }

  predicate ReportsSuccess(t: Task) {
    !t.phase.Delivering? && t.phase.ok
  }

  /** Nobody is told "accepted" before a delivery has succeeded. */
  ghost predicate AnswersHonest(s: State) {
    && (forall n | n in s.tasks && ReportsSuccess(s.tasks[n]) :: Success(s.tasks[n].key) in s.log)
    && (forall r | r in s.requests && s.requests[r].Answered? && s.requests[r].accepted ::
          Success(s.requests[r].key) in s.log)
  }

  ghost predicate Inv(s: State) {
    && FifoExact(s.cache)
    && s.cache.order == LastN(s.completions, MAX_ENTRIES)
    && OwnersMatch(s)
    && WaitersCovered(s)
    && LogMatches(s)
    && AnswersHonest(s)
    && AtMostOnce(s.log)
  }

  lemma InitialInv()
    ensures Inv(INITIAL)
  {
  }

  lemma OwnerKeepsInv(s: State, r: RequestId, newId: NotifyId)
    requires Inv(s) && Enabled(s, ClaimStep(r, newId)) && s.requests[r].key !in s.cache.entries
    ensures Inv(Next(s, ClaimStep(r, newId)))
  {
    var t := Next(s, ClaimStep(r, newId));
    assert t.tasks == s.tasks[newId := Task(s.requests[r].key, Delivering)];
    assert forall k :: IsCompleted(t.cache, k) <==> IsCompleted(s.cache, k);
    assert forall k, n :: n in t.tasks && t.tasks[n] == Task(k, Delivered(true))
                     <==> n in s.tasks && s.tasks[n] == Task(k, Delivered(true));
    assert LogMatches(t);
    assert OwnersMatch(t);
  }

  lemma ClaimKeepsInv(s: State, r: RequestId, newId: NotifyId)
    requires Inv(s) && Enabled(s, ClaimStep(r, newId))
    ensures Inv(Next(s, ClaimStep(r, newId)))
  {
    var key := s.requests[r].key;
    if key !in s.cache.entries {
      OwnerKeepsInv(s, r, newId);
    } else if s.cache.entries[key].Completed? {
      assert IsCompleted(s.cache, key) && Remembered(s.log, key);
    }
  }

  lemma DeliverKeepsInv(s: State, n: NotifyId, ok: bool)
    requires Inv(s) && Enabled(s, Deliver(n, ok))
    ensures Inv(Next(s, Deliver(n, ok)))
  {
    var t := Next(s, Deliver(n, ok));
    var key := s.tasks[n].key;
    assert s.cache.entries[key] == InFlight(n);
    assert !Remembered(s.log, key);
    LogSuccess(s.log, key);
    forall k ensures Remembered(t.log, k) <==>
        IsCompleted(t.cache, k) || exists m :: m in t.tasks && t.tasks[m] == Task(k, Delivered(true))
    {
      if ok && k == key { assert t.tasks[n] == Task(k, Delivered(true)); }
      if m :| m in s.tasks && s.tasks[m] == Task(k, Delivered(true)) { assert t.tasks[m] == s.tasks[m]; }
    }
  }

  lemma SettleKeepsLog(s: State, n: NotifyId)
    requires Inv(s) && Enabled(s, Settle(n))
    ensures LogMatches(Next(s, Settle(n))) && AtMostOnce(Next(s, Settle(n)).log)
  {
    var t := Next(s, Settle(n));
    var Task(key, phase) := s.tasks[n];
    if phase.ok {
      CompleteKeepsFifo(s.cache, key);
      var gone := s.cache.entries.Keys - t.cache.entries.Keys;
      assert |s.cache.order| == MAX_ENTRIES ==> s.cache.order[0] in s.cache.order;
      assert gone == if |s.cache.order| == MAX_ENTRIES then {s.cache.order[0]} else {};
      LogEviction(s.log, gone);
    }
    forall k ensures Remembered(t.log, k) <==>
        IsCompleted(t.cache, k) || exists m :: m in t.tasks && t.tasks[m] == Task(k, Delivered(true))
    {
      if m :| m in s.tasks && s.tasks[m] == Task(k, Delivered(true)) {
        assert m != n ==> t.tasks[m] == s.tasks[m];
        assert s.cache.entries[k] == InFlight(m);
      }
      if m :| m in t.tasks && t.tasks[m] == Task(k, Delivered(true)) {
        assert s.tasks[m] == t.tasks[m];
      }
    }
  }

  /** Settling a key removes its own in-flight entry and no other. */
  lemma SettledEntries(c: Cache, key: Key, ok: bool, k: Key)
    requires FifoExact(c) && key in c.entries && c.entries[key].InFlight?
    ensures var t := if ok then CompleteKey(c, key) else FailKey(c, key);
            (k in t.entries && t.entries[k].InFlight? <==> k != key && k in c.entries && c.entries[k].InFlight?)
            && (k in t.entries && t.entries[k].InFlight? ==> t.entries[k] == c.entries[k])
  {
    if ok {
      CompleteKeepsFifo(c, key);
      assert |c.order| == MAX_ENTRIES ==> c.order[0] in c.order;
    }
  }

  lemma SettleKeepsOwners(s: State, n: NotifyId)
    requires Inv(s) && Enabled(s, Settle(n))
    ensures OwnersMatch(Next(s, Settle(n)))
  {
    var t, key := Next(s, Settle(n)), s.tasks[n].key;
    assert s.cache.entries[key] == InFlight(n);
    forall k | k in t.cache.entries && t.cache.entries[k].InFlight?
      ensures t.cache.entries[k].notify in t.tasks
      ensures t.tasks[t.cache.entries[k].notify].key == k && Live(t.tasks[t.cache.entries[k].notify])
    {
      SettledEntries(s.cache, key, s.tasks[n].phase.ok, k);
    }
    forall m | m in t.tasks && Live(t.tasks[m])
      ensures t.tasks[m].key in t.cache.entries && t.cache.entries[t.tasks[m].key] == InFlight(m)
    {
      SettledEntries(s.cache, key, s.tasks[n].phase.ok, t.tasks[m].key);
    }
  }

  lemma SettleKeepsCache(s: State, n: NotifyId)
    requires Inv(s) && Enabled(s, Settle(n))
    ensures var t := Next(s, Settle(n)); FifoExact(t.cache) && t.cache.order == LastN(t.completions, MAX_ENTRIES)
  {
    assert s.cache.entries[s.tasks[n].key] == InFlight(n);
    if s.tasks[n].phase.ok {
      CompleteKeepsFifo(s.cache, s.tasks[n].key);
    }
  }

  lemma SettleKeepsInv(s: State, n: NotifyId)
    requires Inv(s) && Enabled(s, Settle(n))
    ensures Inv(Next(s, Settle(n)))
  {
    SettleKeepsLog(s, n);
    SettleKeepsOwners(s, n);
    SettleKeepsCache(s, n);
  }

  lemma NotifyKeepsInv(s: State, n: NotifyId)
    requires Inv(s) && Enabled(s, Notify(n))
    ensures Inv(Next(s, Notify(n)))
  {
    var t := Next(s, Notify(n));
    assert forall k, m :: m in t.tasks && t.tasks[m] == Task(k, Delivered(true))
                     <==> m in s.tasks && s.tasks[m] == Task(k, Delivered(true));
  }

  lemma StepKeepsInv(s: State, step: Step)
    requires Inv(s) && Enabled(s, step)
    ensures Inv(Next(s, step))
  {
    match step
    case ClaimStep(r, newId) => ClaimKeepsInv(s, r, newId);
    case Deliver(n, ok) => DeliverKeepsInv(s, n, ok);
    case Settle(n) => SettleKeepsInv(s, n);
    case Notify(n) => NotifyKeepsInv(s, n);
    case _ =>
  }

  lemma {:induction false} RunKeepsInv(s: State, steps: seq<Step>, t: State)
    requires Inv(s) && Run(s, steps, t)
    ensures Inv(t)
    decreases |steps|
  {
    if steps != [] {
      StepKeepsInv(s, steps[0]);
      RunKeepsInv(Next(s, steps[0]), steps[1..], t);
    }
  }

  // ------------------------------------------------------- safety over runs

  /** However requests and tasks interleave: one owner per key, one success until eviction, an exact FIFO. */
  lemma DeliveryIsIdempotent(steps: seq<Step>, t: State)
    requires Run(INITIAL, steps, t)
    ensures forall m, n | m in t.tasks && n in t.tasks && Live(t.tasks[m]) && Live(t.tasks[n]) ::
              t.tasks[m].key == t.tasks[n].key ==> m == n
    ensures AtMostOnce(t.log)
    ensures FifoExact(t.cache) && t.cache.order == LastN(t.completions, MAX_ENTRIES)
    ensures forall r :: r in t.requests && t.requests[r].Answered? && t.requests[r].accepted
              ==> Success(t.requests[r].key) in t.log
  {
    InitialInv();
    RunKeepsInv(INITIAL, steps, t);
  }

  /** A delivery starts only for a key that nobody is delivering and no remembered success covers. */
  lemma StartsOnlyWhenFree(steps: seq<Step>, s: State, r: RequestId, newId: NotifyId)
    requires Run(INITIAL, steps, s) && Enabled(s, ClaimStep(r, newId))
    requires newId in Next(s, ClaimStep(r, newId)).tasks
    ensures !Remembered(s.log, s.requests[r].key)
    ensures forall n :: n in s.tasks && s.tasks[n].key == s.requests[r].key ==> !Live(s.tasks[n])
  {
    InitialInv();
    RunKeepsInv(INITIAL, steps, s);
  }

  /** No lost wakeup: a claimant waits only on an owner that has still to notify. */
  lemma NoLostWakeup(steps: seq<Step>, t: State)
    requires Run(INITIAL, steps, t)
    ensures forall r :: r in t.requests && t.requests[r].Waiting?
              ==> t.requests[r].on in t.tasks && !t.tasks[t.requests[r].on].phase.Notified?
    ensures (forall n :: n in t.tasks ==> t.tasks[n].phase.Notified?)
              ==> forall r :: r in t.requests ==> !t.requests[r].Waiting?
  {
    InitialInv();
    RunKeepsInv(INITIAL, steps, t);
  }

  // --------------------------------------------------------------- liveness

  /** Every step except the arrival of a new request. */
  predicate Quiet(step: Step) {
    !step.Arrive?
  }

  ghost predicate AllAnswered(s: State) {
    forall r :: r in s.requests ==> s.requests[r].Answered?
  }

  lemma RunCons(s: State, step: Step, rest: seq<Step>, t: State)
    requires Enabled(s, step) && Run(Next(s, step), rest, t)
    ensures Run(s, [step] + rest, t)
  {
    assert ([step] + rest)[1..] == rest;
  }

  /** The only request has claimed the key, and nothing has been delivered yet. */
  function OwnerAlone(r: RequestId, key: Key, n: NotifyId): State {
    State(Cache(map[key := InFlight(n)], []), map[n := Task(key, Delivering)], map[r := Awaiting(key, n)], [], [])
  }

  lemma OwnerIsReached(r: RequestId, key: Key, n: NotifyId, rest: seq<Step>, t: State)
    requires Run(OwnerAlone(r, key, n), rest, t)
    ensures Run(INITIAL, [Arrive(r, key)] + ([ClaimStep(r, n)] + rest), t)
  {
    var arrived := Next(INITIAL, Arrive(r, key));
    assert Next(arrived, ClaimStep(r, n)) == OwnerAlone(r, key, n);
    RunCons(arrived, ClaimStep(r, n), rest, t);
    RunCons(INITIAL, Arrive(r, key), [ClaimStep(r, n)] + rest, t);
  }

  /** A request that has the key to itself is told how its delivery ended; and at every point of any run a new
      request may arrive and an old one may be given up. */
  lemma AloneIsTold(r: RequestId, key: Key, n: NotifyId, ok: bool) returns (t: State)
    ensures Run(INITIAL, [Arrive(r, key)] + ([ClaimStep(r, n)]
                         + ([Deliver(n, ok)] + ([Settle(n)] + ([Notify(n)] + ([Join(r)] + []))))), t)
    ensures t.requests == map[r := Answered(key, ok)]
    ensures forall s: State, q, k :: q !in s.requests ==> Enabled(s, Arrive(q, k))
    ensures forall s: State, q :: q in s.requests ==> Enabled(s, Drop(q))
  {
    var owner := OwnerAlone(r, key, n);
    var delivered := Next(owner, Deliver(n, ok));
    var settled := Next(delivered, Settle(n));
    t := OwnerIsTold(settled, r, key, n, ok);
    var rest := [Notify(n)] + ([Join(r)] + []);
    RunCons(delivered, Settle(n), rest, t);
    RunCons(owner, Deliver(n, ok), [Settle(n)] + rest, t);
    OwnerIsReached(r, key, n, [Deliver(n, ok)] + ([Settle(n)] + rest), t);
  }

  lemma OwnerIsTold(s: State, r: RequestId, key: Key, n: NotifyId, ok: bool) returns (t: State)
    requires s.tasks == map[n := Task(key, Settled(ok))] && s.requests == map[r := Awaiting(key, n)]
    ensures Run(s, [Notify(n)] + ([Join(r)] + []), t) && t.requests == map[r := Answered(key, ok)]
  {
    var notified := Next(s, Notify(n));
    t := Next(notified, Join(r));
    RunCons(notified, Join(r), [], t);
    RunCons(s, Notify(n), [Join(r)] + [], t);
  }

  /** Nothing deadlocks: while a request is open, some step other than giving up is possible. */
  lemma SomeStepEnabled(s: State, newId: NotifyId) returns (step: Step)
    requires Inv(s) && !AllAnswered(s) && newId !in s.tasks
    ensures Enabled(s, step) && Quiet(step) && !step.Drop?
  {
    var r :| r in s.requests && !s.requests[r].Answered?;
    match s.requests[r]
    case Claiming(k) => step := ClaimStep(r, newId);
    case Waiting(k, n) => step := TaskStep(s, n);
    case Awaiting(k, n) =>
      if s.tasks[n].phase.Notified? {
        step := Join(r);
      } else {
        step := TaskStep(s, n);
      }
  }

  lemma TaskStep(s: State, n: NotifyId) returns (step: Step)
    requires n in s.tasks && !s.tasks[n].phase.Notified?
    ensures Enabled(s, step) && Quiet(step) && !step.Drop?
  {
    match s.tasks[n].phase
    case Delivering => step := Deliver(n, true);
    case Delivered(ok) => step := Settle(n);
    case Settled(ok) => step := Notify(n);
  }

  ghost function Open(requests: map<RequestId, Request>): set<RequestId> {
    set r | r in requests && !requests[r].Answered?
  }

  ghost function Unowned(requests: map<RequestId, Request>): set<RequestId> {
    set r | r in requests && (requests[r].Claiming? || requests[r].Waiting?)
  }

  ghost function InDelivery(tasks: map<NotifyId, Task>): set<NotifyId> {
    set n | n in tasks && tasks[n].phase.Delivering?
  }

  ghost function ToSettle(tasks: map<NotifyId, Task>): set<NotifyId> {
    set n | n in tasks && tasks[n].phase.Delivered?
  }

  ghost function ToNotify(tasks: map<NotifyId, Task>): set<NotifyId> {
    set n | n in tasks && tasks[n].phase.Settled?
  }

  ghost function Claimants(requests: map<RequestId, Request>): set<RequestId> {
    set r | r in requests && requests[r].Claiming?
  }

  /** Lexicographic measure of the work left once no request arrives any more. */
  ghost predicate LessWork(t: State, s: State) {
    (|Open(s.requests)|, |Unowned(s.requests)|, |InDelivery(s.tasks)|, |ToSettle(s.tasks)|, |ToNotify(s.tasks)|, |Claimants(s.requests)|, |s.requests|
     decreases to
     |Open(t.requests)|, |Unowned(t.requests)|, |InDelivery(t.tasks)|, |ToSettle(t.tasks)|, |ToNotify(t.tasks)|, |Claimants(t.requests)|, |t.requests|)
  }

  lemma ClaimReducesWork(s: State, r: RequestId, newId: NotifyId)
    requires Enabled(s, ClaimStep(r, newId))
    ensures LessWork(Next(s, ClaimStep(r, newId)), s)
  {
    var t := Next(s, ClaimStep(r, newId));
    if t.requests[r].Answered? {
      assert Open(t.requests) == Open(s.requests) - {r};
    } else {
      assert Open(t.requests) == Open(s.requests);
      if t.requests[r].Awaiting? {
        assert Unowned(t.requests) == Unowned(s.requests) - {r};
      } else {
        assert Unowned(t.requests) == Unowned(s.requests);
        assert Claimants(t.requests) == Claimants(s.requests) - {r};
      }
    }
  }

  lemma DeliverReducesWork(s: State, n: NotifyId, ok: bool)
    requires Enabled(s, Deliver(n, ok))
    ensures LessWork(Next(s, Deliver(n, ok)), s)
  {
    var t := Next(s, Deliver(n, ok));
    assert Open(t.requests) == Open(s.requests) && Unowned(t.requests) == Unowned(s.requests);
    assert InDelivery(t.tasks) == InDelivery(s.tasks) - {n};
  }

  lemma SettledTask(tasks: map<NotifyId, Task>, n: NotifyId, settled: Task)
    requires n in tasks && tasks[n].phase.Delivered? && settled.phase.Settled?
    ensures InDelivery(tasks[n := settled]) == InDelivery(tasks)
    ensures ToSettle(tasks[n := settled]) == ToSettle(tasks) - {n}
  {
  }

  lemma SettleReducesWork(s: State, n: NotifyId)
    requires Enabled(s, Settle(n))
    ensures LessWork(Next(s, Settle(n)), s)
  {
    SettledTask(s.tasks, n, Next(s, Settle(n)).tasks[n]);
  }

  lemma NotifyReducesWork(s: State, n: NotifyId)
    requires Enabled(s, Notify(n))
    ensures LessWork(Next(s, Notify(n)), s)
  {
    var t := Next(s, Notify(n));
    assert Open(t.requests) == Open(s.requests) && Unowned(t.requests) == Unowned(s.requests);
    assert InDelivery(t.tasks) == InDelivery(s.tasks) && ToSettle(t.tasks) == ToSettle(s.tasks);
    assert ToNotify(t.tasks) == ToNotify(s.tasks) - {n};
  }

  lemma JoinReducesWork(s: State, r: RequestId)
    requires Enabled(s, Join(r))
    ensures LessWork(Next(s, Join(r)), s)
  {
    assert Open(Next(s, Join(r)).requests) == Open(s.requests) - {r};
  }

  lemma DropReducesWork(s: State, r: RequestId)
    requires Enabled(s, Drop(r))
    ensures LessWork(Next(s, Drop(r)), s)
  {
    var t := Next(s, Drop(r));
    assert t.requests.Keys == s.requests.Keys - {r};
    if s.requests[r].Answered? {
      assert Open(t.requests) == Open(s.requests);
      assert Unowned(t.requests) == Unowned(s.requests);
      assert Claimants(t.requests) == Claimants(s.requests);
    } else {
      assert Open(t.requests) == Open(s.requests) - {r};
    }
  }

  /** Every step but an arrival strictly reduces the work left. */
  lemma QuietStepReducesWork(s: State, step: Step)
    requires Enabled(s, step) && Quiet(step)
    ensures LessWork(Next(s, step), s)
  {
    match step
    case ClaimStep(r, newId) => ClaimReducesWork(s, r, newId);
    case Join(r) => JoinReducesWork(s, r);
    case Drop(r) => DropReducesWork(s, r);
    case Deliver(n, ok) => DeliverReducesWork(s, n, ok);
    case Settle(n) => SettleReducesWork(s, n);
    case Notify(n) => NotifyReducesWork(s, n);
  }

  ghost predicate QuietAt(trace: nat -> State, steps: nat -> Step, i: nat) {
    Enabled(trace(i), steps(i)) && Quiet(steps(i)) && trace(i + 1) == Next(trace(i), steps(i))
  }

  /** Once requests stop arriving, no execution goes on for ever, whatever the scheduler does. */
  lemma {:induction false} QuietRunsEnd(trace: nat -> State, steps: nat -> Step, i: nat)
    requires Inv(trace(i))
    ensures exists j :: j >= i && !QuietAt(trace, steps, j)
    decreases |Open(trace(i).requests)|, |Unowned(trace(i).requests)|, |InDelivery(trace(i).tasks)|, |ToSettle(trace(i).tasks)|,
              |ToNotify(trace(i).tasks)|, |Claimants(trace(i).requests)|, |trace(i).requests|
  {
    if QuietAt(trace, steps, i) {
      QuietStepReducesWork(trace(i), steps(i));
      StepKeepsInv(trace(i), steps(i));
      QuietRunsEnd(trace, steps, i + 1);
    }
  }

  /** So every execution that stops only because nothing is left to do has answered every request. */
  lemma StuckMeansAnswered(s: State, newId: NotifyId)
    requires Inv(s) && newId !in s.tasks
    requires forall step :: Quiet(step) && !step.Drop? ==> !Enabled(s, step)
    ensures AllAnswered(s)
  {
    if !AllAnswered(s) {
      var step := SomeStepEnabled(s, newId);
    }
  }
}
