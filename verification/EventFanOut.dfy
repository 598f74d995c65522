/**
 Fan-out of snapshots over whole runs.  Storing a snapshot and publishing it are two steps, as are
 attaching a receiver and listing the snapshots to replay; steps of different calls interleave.
 */
module EventFanOut {
  import opened Wrappers
  import opened EventHub

  datatype Subscriber = Subscriber(device: Option<string>, start: nat, replay: Option<seq<Snapshot>>)

  datatype State = State(
    snapshots: map<string, Snapshot>,
    channel: seq<Published>,
    setting: seq<Snapshot>,          // stored by a `set_snapshot` that has not published yet
    subscribers: seq<Subscriber>)

  datatype Step =
    | Store(snapshot: Snapshot)
    | PublishStored(call: nat)
    | PublishOther(target: Option<string>, content: string)
    | Disconnect(deviceId: string)
    | Attach(device: Option<string>)
    | ListReplay(subscriber: nat, list: seq<Snapshot>)

  function Init(): State {
    State(map[], [], [], [])
  }

  ghost predicate Enabled(st: State, step: Step) {
    match step
    case PublishStored(i) => i < |st.setting|
    case ListReplay(k, list) =>
      k < |st.subscribers| && st.subscribers[k].replay.None? && ListsAll(list, st.snapshots)
    case _ => true
  }

  /** No two different sets of one thread overlap: a thread is set again only after its last set has published,
      or to the very same snapshot. */
  predicate Agrees(st: State, step: Step) {
    step.Store? ==> forall s :: s in st.setting && s.threadId == step.snapshot.threadId ==> s == step.snapshot
  }

  function Publishing(st: State, p: Published): State {
    st.(channel := st.channel + [p])
  }

  ghost function Next(st: State, step: Step): State
    requires Enabled(st, step)
  {
    match step
    case Store(s) => st.(snapshots := st.snapshots[s.threadId := s], setting := st.setting + [s])
    case PublishStored(i) =>
      Publishing(st, Targeted(None, SessionSnapshot(st.setting[i]))).(setting := st.setting[..i] + st.setting[i + 1..])
    case PublishOther(target, content) => Publishing(st, Targeted(target, Other(content)))
    case Disconnect(d) => Publishing(st, DisconnectDevice(d))
    case Attach(d) => st.(subscribers := st.subscribers + [Subscriber(d, |st.channel|, None)])
    case ListReplay(k, list) =>
      st.(subscribers := st.subscribers[k := st.subscribers[k].(replay := Some(list))])
  }

  /** `to` is reached from `from` by `steps`; with `agreeing`, no two different sets of one thread overlap. */
  ghost predicate Reaches(from: State, steps: seq<Step>, to: State, agreeing: bool)
    decreases |steps|
  {
    if steps == [] then from == to
    else
      && Enabled(from, steps[0])
      && (agreeing ==> Agrees(from, steps[0]))
      && Reaches(Next(from, steps[0]), steps[1..], to, agreeing)
  }

  // ------------------------------------------------------ what was seen last

  predicate IsSnapshotOf(e: Envelope, t: string) {
    e.SessionSnapshot? && e.snapshot.threadId == t
  }

  /** The last snapshot of thread `t` in a stream of envelopes. */
  function LastFor(t: string, stream: seq<Envelope>): Option<Snapshot> {
    if stream == [] then None
    else
      var e := stream[|stream| - 1];
      if IsSnapshotOf(e, t) then Some(e.snapshot) else LastFor(t, stream[..|stream| - 1])
  }

  function LastPublished(t: string, channel: seq<Published>): Option<Snapshot> {
    if channel == [] then None
    else
      var p := channel[|channel| - 1];
      if p.Targeted? && IsSnapshotOf(p.envelope, t) then Some(p.envelope.snapshot)
      else LastPublished(t, channel[..|channel| - 1])
  }

  function Stored(snapshots: map<string, Snapshot>, t: string): Option<Snapshot> {
    if t in snapshots then Some(snapshots[t]) else None
  }

  function OrElse(a: Option<Snapshot>, b: Option<Snapshot>): Option<Snapshot> {
    if a.Some? then a else b
  }

  lemma {:induction false} LastForAppend(t: string, a: seq<Envelope>, b: seq<Envelope>)
    ensures LastFor(t, a + b) == OrElse(LastFor(t, b), LastFor(t, a))
  {
    if b == [] {
      assert a + b == a;
    } else {
      LastForAppend(t, a, b[..|b| - 1]);
      assert (a + b)[..|a + b| - 1] == a + b[..|b| - 1];
    }
  }

  lemma LastPublishedStep(t: string, channel: seq<Published>, p: Published)
    ensures LastPublished(t, channel + [p])
         == if p.Targeted? && IsSnapshotOf(p.envelope, t) then Some(p.envelope.snapshot) else LastPublished(t, channel)
  {
    assert (channel + [p])[..|channel|] == channel;
  }

  lemma {:induction false} LastForInList(t: string, list: seq<Snapshot>, snapshots: map<string, Snapshot>, k: nat)
    requires ListsAll(list, snapshots) && k <= |list|
    ensures LastFor(t, Envelopes(list)[..k])
         == if exists i :: 0 <= i < k && list[i].threadId == t then Stored(snapshots, t) else None
  {
    var stream := Envelopes(list);
    if k > 0 {
      LastForInList(t, list, snapshots, k - 1);
      assert stream[..k][..k - 1] == stream[..k - 1];
      assert stream[..k][k - 1] == SessionSnapshot(list[k - 1]);
      assert list[k - 1] in list;
    }
  }

  lemma ReplayShowsStored(t: string, list: seq<Snapshot>, snapshots: map<string, Snapshot>)
    requires ListsAll(list, snapshots) && KeyedByThread(snapshots)
    ensures LastFor(t, Envelopes(list)) == Stored(snapshots, t)
  {
    LastForInList(t, list, snapshots, |list|);
    assert Envelopes(list)[..|list|] == Envelopes(list);
    if t in snapshots {
      assert snapshots[t] in list;
    } else {
      assert forall i :: 0 <= i < |list| ==> list[i] in list;
    }
  }

  /** Snapshots are only ever published to everyone. */
  ghost predicate SnapshotsUntargeted(channel: seq<Published>) {
    forall p :: p in channel ==> p.Targeted? && p.envelope.SessionSnapshot? ==> p.target.None?
  }

  lemma {:induction false} VisibleKeepsLast(t: string, channel: seq<Published>, device: Option<string>)
    requires SnapshotsUntargeted(channel) && forall p :: p in channel ==> !Disconnects(p, device)
    ensures LastFor(t, Visible(channel, device)) == LastPublished(t, channel)
  {
    if channel != [] {
      var front, p := channel[..|channel| - 1], channel[|channel| - 1];
      assert channel == front + [p];
      VisibleKeepsLast(t, front, device);
      VisibleAppend(front, [p], device);
      var seen := Visible([p], device);
      assert seen == if IsFor(p, device) then [p.envelope] else [];
      LastForAppend(t, Visible(front, device), seen);
      assert LastFor(t, seen) == if IsFor(p, device) && IsSnapshotOf(p.envelope, t) then Some(p.envelope.snapshot) else None by {
        if IsFor(p, device) {
          assert seen[..0] == [];
        }
      }
    }
  }

  // -------------------------------------------------------------- invariant

  predicate BeingSet(st: State, t: string) {
    exists s :: s in st.setting && s.threadId == t
  }

  /** What a subscriber has been shown of thread `t`, disconnects apart. */
  function Shown(t: string, sub: Subscriber, channel: seq<Published>): Option<Snapshot>
    requires sub.replay.Some? && sub.start <= |channel|
  {
    OrElse(LastPublished(t, channel[sub.start..]), LastFor(t, Envelopes(sub.replay.value)))
  }

  ghost predicate WellFormed(st: State) {
    && KeyedByThread(st.snapshots)
    && SnapshotsUntargeted(st.channel)
    && forall sub :: sub in st.subscribers ==> sub.start <= |st.channel|
  }

  /** What the calls in progress will publish is what is stored. */
  ghost predicate SetsAreCurrent(st: State) {
    forall s :: s in st.setting ==> Stored(st.snapshots, s.threadId) == Some(s)
  }

  ghost predicate ChannelIsCurrent(st: State) {
    forall t :: !BeingSet(st, t) ==> LastPublished(t, st.channel) == Stored(st.snapshots, t)
  }

  ghost predicate UpToDate(st: State, sub: Subscriber)
    requires sub.start <= |st.channel|
  {
    sub.replay.Some? ==> forall t :: !BeingSet(st, t) ==> Shown(t, sub, st.channel) == Stored(st.snapshots, t)
  }

  ghost predicate Inv(st: State) {
    && WellFormed(st) && SetsAreCurrent(st) && ChannelIsCurrent(st)
    && forall sub :: sub in st.subscribers ==> UpToDate(st, sub)
  }

  lemma {:induction false} SuffixLast(t: string, channel: seq<Published>, start: nat)
    requires start <= |channel|
    ensures LastPublished(t, channel[start..]).Some? ==>
            LastPublished(t, channel) == LastPublished(t, channel[start..])
  {
    if start < |channel| {
      var p := channel[|channel| - 1];
      assert channel[start..][..|channel| - 1 - start] == channel[..|channel| - 1][start..];
      SuffixLast(t, channel[..|channel| - 1], start);
    }
  }

  lemma StoreKeepsInv(st: State, s: Snapshot)
    requires Inv(st) && Agrees(st, Store(s))
    ensures Inv(Next(st, Store(s)))
  {
    var next := Next(st, Store(s));
    assert s in next.setting;
    forall t
      ensures !BeingSet(next, t) ==> t != s.threadId && !BeingSet(st, t)
    {
      if BeingSet(st, t) {
        var x :| x in st.setting && x.threadId == t;
        assert x in next.setting;
      }
    }
    forall sub | sub in next.subscribers
      ensures UpToDate(next, sub)
    {
      assert UpToDate(st, sub);
    }
  }

  lemma ShownStep(t: string, sub: Subscriber, channel: seq<Published>, p: Published)
    requires sub.replay.Some? && sub.start <= |channel|
    ensures Shown(t, sub, channel + [p])
         == if p.Targeted? && IsSnapshotOf(p.envelope, t) then Some(p.envelope.snapshot) else Shown(t, sub, channel)
  {
    assert (channel + [p])[sub.start..] == channel[sub.start..] + [p];
    LastPublishedStep(t, channel[sub.start..], p);
  }

  /** A published message that is not a snapshot of `t` leaves what is known of `t` alone. */
  lemma OtherKeepsInv(st: State, p: Published)
    requires Inv(st) && (p.Targeted? ==> p.envelope.Other?)
    ensures Inv(Publishing(st, p))
  {
    var next := Publishing(st, p);
    forall t ensures BeingSet(next, t) == BeingSet(st, t) {}
    forall t ensures LastPublished(t, next.channel) == LastPublished(t, st.channel) {
      LastPublishedStep(t, st.channel, p);
    }
    forall sub | sub in next.subscribers
      ensures UpToDate(next, sub)
    {
      assert UpToDate(st, sub);
      forall t | sub.replay.Some?
        ensures Shown(t, sub, next.channel) == Shown(t, sub, st.channel)
      {
        ShownStep(t, sub, st.channel, p);
      }
    }
  }

  /** A subscriber keeps its number, its device and its place in the channel, and its replay once it has one; a new
      one gets the next number and hears what is published from then on. */
  lemma SubscribersKeepTheirPlace(st: State, step: Step, k: nat)
    requires Enabled(st, step)
    ensures |Next(st, step).subscribers| == |st.subscribers| + if step.Attach? then 1 else 0
    ensures k < |st.subscribers| ==>
              var before, after := st.subscribers[k], Next(st, step).subscribers[k];
              && after.device == before.device && after.start == before.start
              && (before.replay.Some? ==> after.replay == before.replay)
    ensures step.Attach? ==> Next(st, step).subscribers[|st.subscribers|] == Subscriber(step.device, |st.channel|, None)
  {
  }

  lemma FinishedSets(st: State, i: nat, t: string)
    requires i < |st.setting|
    ensures BeingSet(Next(st, PublishStored(i)), t) ==> BeingSet(st, t)
    ensures t != st.setting[i].threadId ==> (BeingSet(st, t) ==> BeingSet(Next(st, PublishStored(i)), t))
  {
    var rest := st.setting[..i] + st.setting[i + 1..];
    assert forall x :: x in rest ==> x in st.setting;
    if BeingSet(st, t) && t != st.setting[i].threadId {
      var x :| x in st.setting && x.threadId == t;
      var k :| 0 <= k < |st.setting| && st.setting[k] == x;
      assert x == rest[if k < i then k else k - 1];
    }
  }

  lemma PublishKeepsInv(st: State, i: nat)
    requires Inv(st) && i < |st.setting|
    ensures Inv(Next(st, PublishStored(i)))
  {
    var next, s := Next(st, PublishStored(i)), st.setting[i];
    var p := Targeted(None, SessionSnapshot(s));
    assert s in st.setting;
    assert forall x :: x in next.setting ==> x in st.setting;
    forall t
      ensures t != s.threadId ==> (BeingSet(next, t) <==> BeingSet(st, t))
      ensures LastPublished(t, next.channel) == if t == s.threadId then Some(s) else LastPublished(t, st.channel)
    {
      FinishedSets(st, i, t);
      LastPublishedStep(t, st.channel, p);
    }
    forall sub | sub in next.subscribers
      ensures UpToDate(next, sub)
    {
      assert UpToDate(st, sub);
      forall t | sub.replay.Some?
        ensures Shown(t, sub, next.channel) == if t == s.threadId then Some(s) else Shown(t, sub, st.channel)
      {
        ShownStep(t, sub, st.channel, p);
      }
    }
  }

  lemma AttachKeepsInv(st: State, device: Option<string>)
    requires Inv(st)
    ensures Inv(Next(st, Attach(device)))
  {
    var next := Next(st, Attach(device));
    forall t ensures BeingSet(next, t) == BeingSet(st, t) {}
    forall sub | sub in next.subscribers
      ensures UpToDate(next, sub)
    {
      if sub in st.subscribers {
        assert UpToDate(st, sub);
      }
    }
  }

  lemma ReplayKeepsInv(st: State, k: nat, list: seq<Snapshot>)
    requires Inv(st) && Enabled(st, ListReplay(k, list))
    ensures Inv(Next(st, ListReplay(k, list)))
  {
    var next := Next(st, ListReplay(k, list));
    forall t ensures BeingSet(next, t) == BeingSet(st, t) {}
    assert st.subscribers[k] in st.subscribers;
    forall sub | sub in next.subscribers
      ensures sub.start <= |next.channel| && UpToDate(next, sub)
    {
      if sub in st.subscribers {
        assert UpToDate(st, sub);
      } else {
        assert sub == st.subscribers[k].(replay := Some(list));
        forall t | !BeingSet(st, t)
          ensures Shown(t, sub, next.channel) == Stored(next.snapshots, t)
        {
          ReplayShowsStored(t, list, st.snapshots);
          SuffixLast(t, st.channel, sub.start);
        }
      }
    }
  }

  lemma StepKeepsInv(st: State, step: Step)
    requires Inv(st) && Enabled(st, step) && Agrees(st, step)
    ensures Inv(Next(st, step))
  {
    match step
    case Store(s) => StoreKeepsInv(st, s);
    case PublishStored(i) => PublishKeepsInv(st, i);
    case PublishOther(target, content) => OtherKeepsInv(st, Targeted(target, Other(content)));
    case Disconnect(d) => OtherKeepsInv(st, DisconnectDevice(d));
    case Attach(d) => AttachKeepsInv(st, d);
    case ListReplay(k, list) => ReplayKeepsInv(st, k, list);
  }

  lemma {:induction false} RunKeepsInv(from: State, steps: seq<Step>, to: State)
    requires Inv(from) && Reaches(from, steps, to, true)
    ensures Inv(to)
    decreases |steps|
  {
    if steps != [] {
      StepKeepsInv(from, steps[0]);
      RunKeepsInv(Next(from, steps[0]), steps[1..], to);
    }
  }

  // ------------------------------------------------------------- main results

  /** The whole stream of a subscriber: its replay, then the channel as its device sees it. */
  function Stream(sub: Subscriber, channel: seq<Published>): seq<Envelope>
    requires sub.replay.Some? && sub.start <= |channel|
  {
    Envelopes(sub.replay.value) + Visible(channel[sub.start..], sub.device)
  }

  /** The subscriber has its replay and has not been disconnected. */
  ghost predicate Connected(st: State, k: nat) {
    && k < |st.subscribers| && st.subscribers[k].replay.Some? && st.subscribers[k].start <= |st.channel|
    && forall p :: p in st.channel[st.subscribers[k].start..] ==> !Disconnects(p, st.subscribers[k].device)
  }

  /** The last snapshot of the thread in the subscriber's stream is the one the hub stores. */
  ghost predicate Converged(st: State, k: nat, t: string)
    requires Connected(st, k)
  {
    LastFor(t, Stream(st.subscribers[k], st.channel)) == Stored(st.snapshots, t)
  }

  lemma StreamShows(st: State, k: nat, t: string)
    requires WellFormed(st) && Connected(st, k)
    ensures LastFor(t, Stream(st.subscribers[k], st.channel)) == Shown(t, st.subscribers[k], st.channel)
  {
    var sub := st.subscribers[k];
    var tail := st.channel[sub.start..];
    VisibleKeepsLast(t, tail, sub.device);
    LastForAppend(t, Envelopes(sub.replay.value), Visible(tail, sub.device));
  }

  /**
   After any run in which no two different sets of a thread overlap, a connected subscriber has been shown
   the stored snapshot of every thread that is not just being set.
   */
  lemma SubscribersConverge(steps: seq<Step>, st: State, k: nat, t: string)
    requires Reaches(Init(), steps, st, true)
    requires Connected(st, k) && !BeingSet(st, t)
    ensures Converged(st, k, t)
  {
    RunKeepsInv(Init(), steps, st);
    var sub := st.subscribers[k];
    assert sub in st.subscribers;
    assert UpToDate(st, sub);
    StreamShows(st, k, t);
  }

  // ------------------------------------------------- when overlapping sets diverge

  lemma StepKeepsWellFormed(st: State, step: Step)
    requires WellFormed(st) && Enabled(st, step)
    ensures WellFormed(Next(st, step))
  {
    if step.ListReplay? {
      assert st.subscribers[step.subscriber] in st.subscribers;
    }
  }

  lemma {:induction false} RunKeepsWellFormed(from: State, steps: seq<Step>, to: State, agreeing: bool)
    requires WellFormed(from) && Reaches(from, steps, to, agreeing)
    ensures WellFormed(to)
    decreases |steps|
  {
    if steps != [] {
      StepKeepsWellFormed(from, steps[0]);
      RunKeepsWellFormed(Next(from, steps[0]), steps[1..], to, agreeing);
    }
  }

  /** The calls in progress publish in some order, until none of thread `t` is left. */
  ghost predicate Finishes(from: State, calls: seq<nat>, to: State, t: string)
    decreases |calls|
  {
    if calls == [] then from == to && !BeingSet(to, t)
    else Enabled(from, PublishStored(calls[0])) && Finishes(Next(from, PublishStored(calls[0])), calls[1..], to, t)
  }

  /** However the calls in progress for the thread finish, the subscriber ends on the stored snapshot. */
  ghost predicate AlwaysConverges(st: State, k: nat, t: string) {
    forall calls, to :: Finishes(st, calls, to, t) ==> Connected(to, k) && Converged(to, k, t)
  }

  /** Every call in progress for the thread will publish what is stored. */
  ghost predicate InAgreement(st: State, t: string) {
    forall s :: s in st.setting && s.threadId == t ==> Stored(st.snapshots, t) == Some(s)
  }

  lemma PublishShows(st: State, i: nat, k: nat, t: string)
    requires WellFormed(st) && Connected(st, k) && i < |st.setting|
    ensures var next := Next(st, PublishStored(i));
            && WellFormed(next) && Connected(next, k) && next.snapshots == st.snapshots
            && Shown(t, next.subscribers[k], next.channel)
               == if st.setting[i].threadId == t then Some(st.setting[i]) else Shown(t, st.subscribers[k], st.channel)
  {
    var next, sub := Next(st, PublishStored(i)), st.subscribers[k];
    var p := Targeted(None, SessionSnapshot(st.setting[i]));
    ShownStep(t, sub, st.channel, p);
    assert next.channel[sub.start..] == st.channel[sub.start..] + [p];
  }

  lemma {:induction false} AgreementConverges(st: State, calls: seq<nat>, to: State, k: nat, t: string)
    requires WellFormed(st) && Connected(st, k) && InAgreement(st, t) && Finishes(st, calls, to, t)
    requires BeingSet(st, t) || Shown(t, st.subscribers[k], st.channel) == Stored(st.snapshots, t)
    ensures Connected(to, k) && Converged(to, k, t)
    decreases |calls|
  {
    if calls == [] {
      StreamShows(st, k, t);
    } else {
      var i := calls[0];
      var next := Next(st, PublishStored(i));
      PublishShows(st, i, k, t);
      FinishedSets(st, i, t);
      assert st.setting[i] in st.setting;
      assert forall x :: x in next.setting ==> x in st.setting;
      AgreementConverges(next, calls[1..], to, k, t);
    }
  }

  /** Publish every other call first and the one at `i` last. */
  lemma {:induction false} FinishWith(st: State, i: nat, k: nat) returns (calls: seq<nat>, to: State)
    requires WellFormed(st) && Connected(st, k) && i < |st.setting|
    ensures Finishes(st, calls, to, st.setting[i].threadId)
    ensures WellFormed(to) && Connected(to, k) && to.snapshots == st.snapshots
    ensures Shown(st.setting[i].threadId, to.subscribers[k], to.channel) == Some(st.setting[i])
    decreases |st.setting|
  {
    var t := st.setting[i].threadId;
    if |st.setting| == 1 {
      to := Next(st, PublishStored(0));
      PublishShows(st, 0, k, t);
      calls := [0];
      assert calls[1..] == [];
    } else {
      var j := if i == 0 then 1 else 0;
      var next := Next(st, PublishStored(j));
      PublishShows(st, j, k, t);
      assert next.setting[if i == 0 then 0 else i - 1] == st.setting[i];
      calls, to := FinishWith(next, if i == 0 then 0 else i - 1, k);
      assert ([j] + calls)[1..] == calls;
      calls := [j] + calls;
    }
  }

  /** From any state, of any schedule, in which the thread is being set: its calls in progress bring every
      connected subscriber to the stored snapshot, in whatever order they finish, exactly when all agree with it. */
  lemma ConvergesExactly(st: State, k: nat, t: string)
    requires WellFormed(st) && Connected(st, k) && BeingSet(st, t)
    ensures AlwaysConverges(st, k, t) <==> InAgreement(st, t)
  {
    if InAgreement(st, t) {
      forall calls, to | Finishes(st, calls, to, t)
        ensures Connected(to, k) && Converged(to, k, t)
      {
        AgreementConverges(st, calls, to, k, t);
      }
    } else {
      var s :| s in st.setting && s.threadId == t && Stored(st.snapshots, t) != Some(s);
      var i :| 0 <= i < |st.setting| && st.setting[i] == s;
      var calls, to := FinishWith(st, i, k);
      StreamShows(to, k, t);
    }
  }

  /** In any state that any schedule reaches, two different calls in progress for one thread can leave every
      connected subscriber on a snapshot that is not the stored one. */
  lemma OverlapLeavesStale(steps: seq<Step>, st: State, i: nat, j: nat, k: nat)
    requires Reaches(Init(), steps, st, false) && Connected(st, k)
    requires i < j < |st.setting| && st.setting[i].threadId == st.setting[j].threadId && st.setting[i] != st.setting[j]
    ensures exists calls, to :: Finishes(st, calls, to, st.setting[i].threadId)
              && Connected(to, k) && !Converged(to, k, st.setting[i].threadId)
  {
    RunKeepsWellFormed(Init(), steps, st, false);
    var stale := if Stored(st.snapshots, st.setting[i].threadId) == Some(st.setting[i]) then j else i;
    var calls, to := FinishWith(st, stale, k);
    StreamShows(to, k, st.setting[i].threadId);
  }

  /** So a schedule without conflicts keeps converging through one more set exactly when that set conflicts with
      none in progress. */
  lemma OverlapDecidesConvergence(steps: seq<Step>, st: State, s: Snapshot, k: nat)
    requires Reaches(Init(), steps, st, true) && Connected(st, k)
    ensures AlwaysConverges(Next(st, Store(s)), k, s.threadId) <==> Agrees(st, Store(s))
  {
    RunKeepsInv(Init(), steps, st);
    var next := Next(st, Store(s));
    assert s in next.setting && BeingSet(next, s.threadId);
    assert forall x :: x in next.setting <==> x in st.setting || x == s;
    ConvergesExactly(next, k, s.threadId);
  }

  /** The subscriber is connected all along the schedule. */
  ghost predicate Watches(k: nat, from: State, steps: seq<Step>)
    decreases |steps|
  {
    && Connected(from, k)
    && (steps == [] || (Enabled(from, steps[0]) && Watches(k, Next(from, steps[0]), steps[1..])))
  }

  /** At every point of the schedule, the calls in progress for a thread converge however they finish. */
  ghost predicate ConvergesThroughout(k: nat, from: State, steps: seq<Step>)
    decreases |steps|
  {
    && (forall t :: BeingSet(from, t) ==> AlwaysConverges(from, k, t))
    && (steps == [] || (Enabled(from, steps[0]) && ConvergesThroughout(k, Next(from, steps[0]), steps[1..])))
  }

  lemma CurrentConverges(st: State, k: nat)
    requires WellFormed(st) && SetsAreCurrent(st) && Connected(st, k)
    ensures forall t :: BeingSet(st, t) ==> AlwaysConverges(st, k, t)
  {
    forall t | BeingSet(st, t)
      ensures AlwaysConverges(st, k, t)
    {
      ConvergesExactly(st, k, t);
    }
  }

  lemma ConflictDiverges(st: State, s: Snapshot, k: nat)
    requires WellFormed(st) && Connected(Next(st, Store(s)), k) && !Agrees(st, Store(s))
    ensures BeingSet(Next(st, Store(s)), s.threadId) && !AlwaysConverges(Next(st, Store(s)), k, s.threadId)
  {
    var next := Next(st, Store(s));
    var other :| other in st.setting && other.threadId == s.threadId && other != s;
    assert other in next.setting;
    StepKeepsWellFormed(st, Store(s));
    ConvergesExactly(next, k, s.threadId);
  }

  /** A watched schedule converges throughout exactly when no two different sets of one thread overlap in it. */
  lemma {:induction false} SchedulesConvergeExactly(from: State, steps: seq<Step>, to: State, k: nat)
    requires Inv(from) && Reaches(from, steps, to, false) && Watches(k, from, steps)
    ensures ConvergesThroughout(k, from, steps) <==> Reaches(from, steps, to, true)
    decreases |steps|
  {
    CurrentConverges(from, k);
    if steps != [] {
      var next := Next(from, steps[0]);
      if Agrees(from, steps[0]) {
        StepKeepsInv(from, steps[0]);
        SchedulesConvergeExactly(next, steps[1..], to, k);
      } else {
        ConflictDiverges(from, steps[0].snapshot, k);
      }
    }
  }

  // ------------------------------------------------------- such states are reached

  lemma {:induction false} ReachesLast(from: State, steps: seq<Step>, mid: State, step: Step)
    requires Reaches(from, steps, mid, false) && Enabled(mid, step)
    ensures Reaches(from, steps + [step], Next(mid, step), false)
    decreases |steps|
  {
    if steps == [] {
      assert [step][1..] == [];
    } else {
      ReachesLast(Next(from, steps[0]), steps[1..], mid, step);
      assert (steps + [step])[1..] == steps[1..] + [step];
    }
  }

  /** Reachable when sets may overlap. */
  ghost predicate Reachable(st: State) {
    exists steps :: Reaches(Init(), steps, st, false)
  }

  lemma ReachableNext(st: State, step: Step)
    requires Reachable(st) && Enabled(st, step)
    ensures Reachable(Next(st, step))
  {
    var steps :| Reaches(Init(), steps, st, false);
    ReachesLast(Init(), steps, st, step);
  }

  /** Two sets of one thread in progress, watched by one subscriber. */
  function BothStored(older: Snapshot, newer: Snapshot): State {
    State(map[older.threadId := newer], [], [older, newer], [Subscriber(None, 0, Some([]))])
  }

  lemma OverlapIsReachable(older: Snapshot, newer: Snapshot)
    requires older.threadId == newer.threadId
    ensures Reachable(BothStored(older, newer)) && Connected(BothStored(older, newer), 0)
  {
    var s1 := State(map[], [], [], [Subscriber(None, 0, None)]);
    var s2 := State(map[], [], [], [Subscriber(None, 0, Some([]))]);
    var s3 := State(map[older.threadId := older], [], [older], s2.subscribers);
    assert Reaches(Init(), [], Init(), false);
    ReachableNext(Init(), Attach(None));
    assert Next(Init(), Attach(None)) == s1;
    ReachableNext(s1, ListReplay(0, []));
    assert Next(s1, ListReplay(0, [])) == s2;
    ReachableNext(s2, Store(older));
    assert Next(s2, Store(older)) == s3;
    ReachableNext(s3, Store(newer));
    assert Next(s3, Store(newer)) == BothStored(older, newer);
  }
}
