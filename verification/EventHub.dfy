/**
 The event hub: the latest snapshot per thread, a broadcast channel of bounded memory, and subscribers
 that replay the snapshots before they follow the channel.
 */
module EventHub {
  import opened Sequences
  import opened Text
  import opened Wrappers
  import opened Ordering

  datatype Snapshot = Snapshot(threadId: string, updatedAt: nat, content: string)
  datatype Envelope = SessionSnapshot(snapshot: Snapshot) | Other(content: string)
  datatype Published = Targeted(target: Option<string>, envelope: Envelope) | DisconnectDevice(deviceId: string)

  // -------------------------------------------------------------- snapshots

  /** Most recently updated first, then by thread id. */
  predicate Newer(a: Snapshot, b: Snapshot) {
    a.updatedAt > b.updatedAt || (a.updatedAt == b.updatedAt && Less(a.threadId, b.threadId))
  }

  lemma NewerIsStrict()
    ensures StrictOrder(Newer)
  {
    forall x: Snapshot
      ensures !Newer(x, x)
    {
      LessIrreflexive(x.threadId);
    }
    forall x: Snapshot, y: Snapshot, z: Snapshot | Newer(x, y) && Newer(y, z)
      ensures Newer(x, z)
    {
      if x.updatedAt == y.updatedAt == z.updatedAt {
        LessTransitive(x.threadId, y.threadId, z.threadId);
      }
    }
  }

  ghost predicate KeyedByThread(snapshots: map<string, Snapshot>) {
    forall t :: t in snapshots ==> snapshots[t].threadId == t
  }

  /** `list` holds each stored snapshot once, newest first. */
  ghost predicate ListsAll(list: seq<Snapshot>, snapshots: map<string, Snapshot>) {
    && Sorted(Newer, list)
    && forall s :: s in list <==> s.threadId in snapshots && snapshots[s.threadId] == s
  }

  /** A later entry was updated no later, and at equal times has the greater thread id. */
  lemma ListedNewestFirst(list: seq<Snapshot>, snapshots: map<string, Snapshot>, i: nat, j: nat)
    requires ListsAll(list, snapshots) && i < j < |list|
    ensures list[i].updatedAt >= list[j].updatedAt
    ensures list[i].updatedAt == list[j].updatedAt ==> Less(list[i].threadId, list[j].threadId)
  {
    assert Newer(list[i], list[j]);
  }

  /** The replayed list does not depend on the iteration order of the hash map. */
  lemma ReplayIsDetermined(a: seq<Snapshot>, b: seq<Snapshot>, snapshots: map<string, Snapshot>)
    requires ListsAll(a, snapshots) && ListsAll(b, snapshots)
    ensures a == b
  {
    NewerIsStrict();
    SortedUnique(Newer, a, b);
  }

  lemma DifferentThreadsComparable(list: seq<Snapshot>)
    requires forall i, j :: 0 <= i < j < |list| ==> list[i].threadId != list[j].threadId
    ensures Comparable(Newer, list)
  {
    forall i, j | 0 <= i < j < |list|
      ensures Newer(list[i], list[j]) || Newer(list[j], list[i])
    {
      LessTotal(list[i].threadId, list[j].threadId);
    }
  }

  // -------------------------------------------------- what a subscriber sees

  predicate IsFor(p: Published, device: Option<string>) {
    p.Targeted? && (p.target.None? || p.target == device)
  }

  predicate Disconnects(p: Published, device: Option<string>) {
    p.DisconnectDevice? && Some(p.deviceId) == device
  }

  /** The channel filtered for one device and cut at its first disconnect. */
  function Visible(channel: seq<Published>, device: Option<string>): seq<Envelope> {
    if channel == [] || Disconnects(channel[0], device) then []
    else (if IsFor(channel[0], device) then [channel[0].envelope] else []) + Visible(channel[1..], device)
  }

  predicate Concerns(p: Published, device: Option<string>) {
    IsFor(p, device) || Disconnects(p, device)
  }

  lemma {:induction false} SkipOthers(channel: seq<Published>, device: Option<string>, k: nat)
    requires k <= |channel| && forall i :: 0 <= i < k ==> !Concerns(channel[i], device)
    ensures Visible(channel, device) == Visible(channel[k..], device)
  {
    if k > 0 {
      SkipOthers(channel[1..], device, k - 1);
      assert channel[1..][k - 1..] == channel[k..];
    } else {
      assert channel[0..] == channel;
    }
  }

  lemma FirstOfConcern(channel: seq<Published>, device: Option<string>, start: nat, k: nat)
    requires start <= k < |channel| && Concerns(channel[k], device)
    requires forall i :: start <= i < k ==> !Concerns(channel[i], device)
    ensures Visible(channel[start..], device)
         == if Disconnects(channel[k], device) then [] else [channel[k].envelope] + Visible(channel[k + 1..], device)
  {
    SkipOthers(channel[start..], device, k - start);
    assert channel[start..][k - start..] == channel[k..];
    assert channel[k..][1..] == channel[k + 1..];
  }

  lemma NothingOfConcern(channel: seq<Published>, device: Option<string>, start: nat)
    requires start <= |channel|
    requires forall i :: start <= i < |channel| ==> !Concerns(channel[i], device)
    ensures Visible(channel[start..], device) == []
  {
    SkipOthers(channel[start..], device, |channel| - start);
  }

  /** Without a disconnect every untargeted envelope reaches every subscriber, in order. */
  lemma {:induction false} VisibleAppend(channel: seq<Published>, more: seq<Published>, device: Option<string>)
    requires forall p :: p in channel ==> !Disconnects(p, device)
    ensures Visible(channel + more, device) == Visible(channel, device) + Visible(more, device)
  {
    if channel == [] {
      assert channel + more == more;
    } else {
      var head := if IsFor(channel[0], device) then [channel[0].envelope] else [];
      assert (channel + more)[1..] == channel[1..] + more;
      VisibleAppend(channel[1..], more, device);
      AppendAssociates(head, Visible(channel[1..], device), Visible(more, device));
    }
  }

  /** The message is an envelope for everybody or for exactly this device. */
  predicate Brings(p: Published, device: Option<string>, e: Envelope) {
    p == Targeted(None, e) || (device.Some? && p == Targeted(Some(device.value), e))
  }

  /** The message is an envelope for another device, or disconnects another one. */
  predicate IsForeign(p: Published, device: Option<string>) {
    match p
    case Targeted(None, _) => false
    case Targeted(Some(d), _) => device != Some(d)
    case DisconnectDevice(d) => device != Some(d)
  }

  /** `at` lists where the envelopes of `stream` stand in the channel, in order; everything between them and up to
      `end` is foreign, and `end` is the end of the channel or the first disconnect of the device. */
  ghost predicate ReadsOff(channel: seq<Published>, start: nat, end: nat, device: Option<string>, stream: seq<Envelope>,
                           at: seq<nat>) {
    && start <= end <= |channel| && |at| == |stream|
    && (forall i :: 0 <= i < |at| ==> start <= at[i] < end && Brings(channel[at[i]], device, stream[i]))
    && (forall i, j :: 0 <= i < j < |at| ==> at[i] < at[j])
    && (forall k :: start <= k < end && k !in at ==> IsForeign(channel[k], device))
    && (end < |channel| ==> device.Some? && channel[end] == DisconnectDevice(device.value))
  }

  lemma ReadsOffCons(channel: seq<Published>, start: nat, end: nat, device: Option<string>, e: Envelope,
                     stream: seq<Envelope>, at: seq<nat>)
    requires start < |channel| && Brings(channel[start], device, e) && ReadsOff(channel, start + 1, end, device, stream, at)
    ensures ReadsOff(channel, start, end, device, [e] + stream, [start] + at)
  {
    var at', stream' := [start] + at, [e] + stream;
    forall i | 0 <= i < |at'|
      ensures start <= at'[i] < end && Brings(channel[at'[i]], device, stream'[i])
      ensures forall j :: i < j < |at'| ==> at'[i] < at'[j]
    {
      if i > 0 {
        assert at'[i] == at[i - 1] && stream'[i] == stream[i - 1];
      }
      assert forall j :: 0 < j < |at'| ==> at'[j] == at[j - 1];
    }
    forall k | start <= k < end && k !in at'
      ensures IsForeign(channel[k], device)
    {
      assert at'[0] == start && forall x :: x in at ==> x in at';
    }
  }

  lemma ReadsOffSkip(channel: seq<Published>, start: nat, end: nat, device: Option<string>, stream: seq<Envelope>,
                     at: seq<nat>)
    requires start < |channel| && IsForeign(channel[start], device) && ReadsOff(channel, start + 1, end, device, stream, at)
    ensures ReadsOff(channel, start, end, device, stream, at)
  {
  }

  /** The visible stream is what the constructors say, with no notion of concern in between. */
  lemma {:induction false} VisibleReadsOff(channel: seq<Published>, start: nat, device: Option<string>)
    returns (end: nat, at: seq<nat>)
    requires start <= |channel|
    ensures ReadsOff(channel, start, end, device, Visible(channel[start..], device), at)
    decreases |channel| - start
  {
    if start == |channel| || Disconnects(channel[start], device) {
      end, at := start, [];
    } else {
      assert channel[start..][1..] == channel[start + 1..];
      end, at := VisibleReadsOff(channel, start + 1, device);
      var rest := Visible(channel[start + 1..], device);
      if IsFor(channel[start], device) {
        assert Visible(channel[start..], device) == [channel[start].envelope] + rest;
        ReadsOffCons(channel, start, end, device, channel[start].envelope, rest, at);
        at := [start] + at;
      } else {
        assert Visible(channel[start..], device) == rest;
        ReadsOffSkip(channel, start, end, device, rest, at);
      }
    }
  }

  predicate IsDisconnect(p: Published, device: Option<string>) {
    device.Some? && p == DisconnectDevice(device.value)
  }

  /** The device is not disconnected before the end. */
  lemma NoDisconnectBeforeEnd(channel: seq<Published>, start: nat, end: nat, device: Option<string>,
                              stream: seq<Envelope>, at: seq<nat>, k: nat)
    requires ReadsOff(channel, start, end, device, stream, at) && start <= k < end
    ensures !IsDisconnect(channel[k], device)
  {
    if k in at {
      var i :| 0 <= i < |at| && at[i] == k;
      assert Brings(channel[at[i]], device, stream[i]);
    } else {
      assert IsForeign(channel[k], device);
    }
  }

  /** Nor does reading go past the end without meeting the disconnect. */
  lemma NotPastEnd(channel: seq<Published>, start: nat, end: nat, device: Option<string>, stream: seq<Envelope>,
                   at: seq<nat>, from: nat, upto: nat)
    requires ReadsOff(channel, start, end, device, stream, at) && from <= end && from <= upto <= |channel|
    requires forall k :: from <= k < upto ==> !IsDisconnect(channel[k], device)
    ensures upto <= end
  {
    assert end < |channel| ==> IsDisconnect(channel[end], device);
  }

  datatype Outcome = Received(envelope: Envelope) | DeviceDisconnected | Lagged(missed: nat) | Closed | Pending

  /** Everything skipped was foreign, and the last message read is what the outcome says. */
  ghost predicate ReadsTo(channel: seq<Published>, device: Option<string>, from: nat, next: nat, outcome: Outcome) {
    && from <= next <= |channel|
    && (outcome.Received? || outcome.DeviceDisconnected? ==>
          && from < next
          && (outcome.Received? ==> Brings(channel[next - 1], device, outcome.envelope))
          && (outcome.DeviceDisconnected? ==> IsDisconnect(channel[next - 1], device)))
    && (forall k :: from <= k < (if outcome.Received? || outcome.DeviceDisconnected? then next - 1 else next)
          ==> IsForeign(channel[k], device))
  }

  /** Reading on meets the end exactly when it is a disconnect. */
  lemma EndIsMet(channel: seq<Published>, start: nat, end: nat, device: Option<string>, stream: seq<Envelope>,
                 at: seq<nat>, from: nat, next: nat, outcome: Outcome)
    requires ReadsOff(channel, start, end, device, stream, at) && start <= from <= end
    requires ReadsTo(channel, device, from, next, outcome)
    ensures if outcome.DeviceDisconnected? then end == next - 1 else next <= end
  {
    var upto := if outcome.DeviceDisconnected? then next - 1 else next;
    NotPastEnd(channel, start, end, device, stream, at, from, upto);
    if outcome.DeviceDisconnected? && upto < end {
      NoDisconnectBeforeEnd(channel, start, end, device, stream, at, upto);
      assert false;
    }
  }

  function Envelopes(list: seq<Snapshot>): seq<Envelope> {
    seq(|list|, i requires 0 <= i < |list| => SessionSnapshot(list[i]))
  }

  class EventHub {
    const capacity: nat
    var snapshots: map<string, Snapshot>
    var channel: seq<Published>
    var closed: bool

    ghost predicate Valid()
      reads this
    {
      KeyedByThread(snapshots)
    }

    constructor (bufferCapacity: nat)
      ensures Valid() && capacity == bufferCapacity && snapshots == map[] && channel == [] && !closed
    {
      capacity, snapshots, channel, closed := bufferCapacity, map[], [], false;
    }

    method Publish(envelope: Envelope)
      requires Valid()
      modifies this
      ensures Valid() && snapshots == old(snapshots) && closed == old(closed)
      ensures channel == old(channel) + [Targeted(None, envelope)]
    {
      channel := channel + [Targeted(None, envelope)];
    }

    method PublishToDevice(deviceId: string, envelope: Envelope)
      requires Valid()
      modifies this
      ensures Valid() && snapshots == old(snapshots) && closed == old(closed)
      ensures channel == old(channel) + [Targeted(Some(deviceId), envelope)]
    {
      channel := channel + [Targeted(Some(deviceId), envelope)];
    }

    method Disconnect(deviceId: string)
      requires Valid()
      modifies this
      ensures Valid() && snapshots == old(snapshots) && closed == old(closed)
      ensures channel == old(channel) + [DisconnectDevice(deviceId)]
    {
      channel := channel + [DisconnectDevice(deviceId)];
    }

    /** The two parts of `set_snapshot`; other calls may come between them. */
    method StoreSnapshot(snapshot: Snapshot)
      requires Valid()
      modifies this
      ensures Valid() && channel == old(channel) && closed == old(closed)
      ensures snapshots == old(snapshots)[snapshot.threadId := snapshot]
    {
      snapshots := snapshots[snapshot.threadId := snapshot];
    }

    method SetSnapshot(snapshot: Snapshot)
      requires Valid()
      modifies this
      ensures Valid() && closed == old(closed)
      ensures snapshots == old(snapshots)[snapshot.threadId := snapshot]
      ensures channel == old(channel) + [Targeted(None, SessionSnapshot(snapshot))]
    {
      StoreSnapshot(snapshot);
      Publish(SessionSnapshot(snapshot));
    }

    /** The values come out of the map in an arbitrary order and are then sorted. */
    method AllSnapshots() returns (list: seq<Snapshot>)
      requires Valid()
      ensures ListsAll(list, snapshots)
    {
      var values: seq<Snapshot> := [];
      var left := snapshots.Keys;
      while left != {}
        invariant left <= snapshots.Keys
        invariant forall s :: s in values <==>
          s.threadId in snapshots && s.threadId !in left && snapshots[s.threadId] == s
        invariant forall i, j :: 0 <= i < j < |values| ==> values[i].threadId != values[j].threadId
        decreases left
      {
        var t :| t in left;
        assert forall s :: s in values ==> s.threadId != t;
        values := values + [snapshots[t]];
        left := left - {t};
      }
      list := Sort(Newer, values);
      NewerIsStrict();
      DifferentThreadsComparable(values);
      SortSorted(Newer, values);
      SameElements(list, values);
    }
  }

  class EventSubscriber {
    const hub: EventHub
    const device: Option<string>
    var replay: seq<Envelope>
    var next: nat

    ghost predicate Valid()
      reads this, hub
    {
      hub.Valid() && next <= |hub.channel|
    }

    /** Everything this subscriber is still owed. */
    ghost function Owed(): seq<Envelope>
      reads this, hub
      requires Valid()
    {
      replay + Visible(hub.channel[next..], device)
    }

    /** The channel has dropped messages that this subscriber did not read. */
    predicate Behind()
      reads this, hub
    {
      |hub.channel| > next + hub.capacity
    }

    /** The receiver is attached before the snapshots are listed. */
    constructor (eventHub: EventHub, deviceId: Option<string>)
      requires eventHub.Valid()
      ensures hub == eventHub && device == deviceId && Valid() && next == |eventHub.channel|
      ensures exists list :: ListsAll(list, eventHub.snapshots) && Owed() == Envelopes(list)
    {
      hub, device, next := eventHub, deviceId, |eventHub.channel|;
      var list := eventHub.AllSnapshots();
      replay := Envelopes(list);
      new;
      assert hub.channel[next..] == [];
      assert Owed() == Envelopes(list);
    }

    /** The receive loop over messages that the channel still holds. */
    method Follow() returns (outcome: Outcome)
      requires Valid() && replay == []
      modifies this`next
      ensures Valid() && old(next) <= next && !outcome.Lagged?
      ensures outcome.Received? ==> old(Owed()) == [outcome.envelope] + Owed() && old(next) < next
      ensures outcome.DeviceDisconnected? ==> old(Owed()) == [] && old(next) < next
      ensures outcome.Pending? || outcome.Closed? ==>
              old(Owed()) == [] && next == |hub.channel| && (outcome.Closed? <==> hub.closed)
      ensures ReadsTo(hub.channel, device, old(next), next, outcome)
    {
      var channel := hub.channel;
      ghost var start := next;
      assert OwedIs(channel, start);
      while next < |channel|
        invariant start <= next <= |channel|
        invariant forall k :: start <= k < next ==> !Concerns(channel[k], device) && IsForeign(channel[k], device)
      {
        var message := channel[next];
        next := next + 1;
        if IsFor(message, device) {
          FirstOfConcern(channel, device, start, next - 1);
          assert OwedIs(channel, next);
          return Received(message.envelope);
        }
        if Disconnects(message, device) {
          FirstOfConcern(channel, device, start, next - 1);
          return DeviceDisconnected;
        }
      }
      NothingOfConcern(channel, device, start);
      outcome := if hub.closed then Closed else Pending;
    }

    method Recv() returns (outcome: Outcome)
      requires Valid()
      modifies this
      ensures Valid() && old(next) <= next
      ensures outcome.Received? ==> old(Owed()) == [outcome.envelope] + Owed()
      ensures if old(replay) == [] then replay == [] && (outcome.Received? ==> old(next) < next)
              else outcome == Received(old(replay)[0]) && replay == old(replay)[1..] && next == old(next)
      ensures outcome.DeviceDisconnected? ==> old(Owed()) == [] && old(next) < next
      ensures outcome.Pending? || outcome.Closed? ==>
              old(Owed()) == [] && next == |hub.channel| && (outcome.Closed? <==> hub.closed)
      ensures old(replay) == [] && !outcome.Lagged? ==> ReadsTo(hub.channel, device, old(next), next, outcome)
      ensures outcome.Lagged? <==> old(replay) == [] && old(Behind())
      ensures outcome.Lagged? ==> next == |hub.channel| - hub.capacity == old(next) + outcome.missed
    {
      if replay != [] {
        outcome := Received(replay[0]);
        replay := replay[1..];
      } else if |hub.channel| > next + hub.capacity {
        outcome := Lagged(|hub.channel| - hub.capacity - next);
        next := |hub.channel| - hub.capacity;
      } else {
        outcome := Follow();
      }
    }

    ghost predicate OwedIs(channel: seq<Published>, from: nat)
      reads this, hub
      requires Valid() && from <= |channel|
    {
      Owed() == Visible(channel[from..], device)
    }

    /** The socket loop: forward until the stream ends, lags or has nothing more to give. */
    method Forward() returns (sent: seq<Envelope>, outcome: Outcome, ghost end: nat, ghost at: seq<nat>)
      requires Valid()
      modifies this
      ensures Valid() && !outcome.Received?
      ensures !old(Behind()) ==>
              && sent == old(Owed()) && old(replay) <= sent
              && ReadsOff(hub.channel, old(next), end, device, sent[|old(replay)|..], at)
              && outcome == if end < |hub.channel| then DeviceDisconnected else if hub.closed then Closed else Pending
      ensures old(Behind()) ==> outcome.Lagged? && sent == old(replay)
    {
      sent := [];
      end, at := VisibleReadsOff(hub.channel, next, device);
      ghost var owed := Owed();
      ghost var behind, backlog := Behind(), replay;
      outcome := Pending;
      while true
        invariant Valid()
        invariant behind == Behind()
        invariant sent + Owed() == owed
        invariant behind ==> sent + replay == backlog
        invariant ReadsOff(hub.channel, old(next), end, device, Visible(hub.channel[old(next)..], device), at)
        invariant !behind ==> old(next) <= next <= end
        decreases |replay| + |hub.channel| - next
      {
        ghost var from, backlogged := next, replay != [];
        outcome := Recv();
        if !behind && !backlogged {
          EndIsMet(hub.channel, old(next), end, device, Visible(hub.channel[old(next)..], device), at, from, next, outcome);
        }
        if !outcome.Received? {
          return;
        }
        AppendAssociates(sent, [outcome.envelope], Owed());
        sent := sent + [outcome.envelope];
      }
    }
  }
}
