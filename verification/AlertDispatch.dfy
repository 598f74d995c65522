/**
 Dispatch of one alert: a live envelope to every device that wants the kind, and an outbox row for those
 among them that can be pushed to.
 */
module AlertDispatch {
  import opened Sequences
  import opened Sqlite
  import opened Wrappers
  import opened PushStore
  import opened PushWorker
  import Hub = EventHub
  import opened AlertDetector

  /** The settings of an enabled, unrevoked device. */
  datatype Settings = Settings(deviceId: string, kinds: set<AlertKind>)

  function Wants(kind: AlertKind): Settings -> bool {
    (s: Settings) => kind in s.kinds
  }

  /** The targets of an alert are the devices that want its kind, in the order of the settings. */
  lemma {:induction false} TargetsWantTheKind(kind: AlertKind, enabled: seq<Settings>)
    ensures forall s: Settings :: s in Filter(Wants(kind), enabled) <==> s in enabled && kind in s.kinds
    ensures forall s: Settings :: multiset(Filter(Wants(kind), enabled))[s] == if kind in s.kinds then multiset(enabled)[s] else 0
  {
    FilterMembers(Wants(kind), enabled);
    if enabled != [] {
      TargetsWantTheKind(kind, enabled[1..]);
      assert enabled == [enabled[0]] + enabled[1..];
    }
  }

  predicate Pushable(store: Store, access: Option<Access>, device: string) {
    access.Some? && Sendable(store, access.value, device)
  }

  function NewRow(now: nat): Row {
    Row(true, Pending, 0, now, None, now)
  }

  /** The store after the first targets have been served; `clock(i)` is the time at target `i`. */
  function Enqueued(store: Store, access: Option<Access>, eventId: string, targets: seq<Settings>, clock: nat -> nat): Store {
    if targets == [] then store
    else
      var n := |targets| - 1;
      var before := Enqueued(store, access, eventId, targets[..n], clock);
      var device := targets[n].deviceId;
      if Pushable(before, access, device) then Enqueue(before, RowKey(eventId, device), NewRow(clock(n))) else before
  }

  /** The insert for target `i` is refused. */
  predicate RefusedAt(store: Store, access: Option<Access>, targets: seq<Settings>, clock: nat -> nat, i: nat)
    requires i < |targets|
  {
    Pushable(store, access, targets[i].deviceId) && !Storable(clock(i))
  }

  function Envelopes(targets: seq<Settings>, envelope: Hub.Envelope): seq<Hub.Published> {
    seq(|targets|, i requires 0 <= i < |targets| => Hub.Targeted(Some(targets[i].deviceId), envelope))
  }

  /** Receivers reached by the first `n` envelopes; `receivers(i)` is what the channel reports for target `i`. */
  function Deliveries(receivers: nat -> nat, n: nat): nat {
    if n == 0 then 0 else Deliveries(receivers, n - 1) + receivers(n - 1)
  }

  class NotificationDispatcher {
    const store: NotificationStore
    const hub: Hub.EventHub
    const hasPushRuntime: bool
    var wakes: nat

    constructor (notificationStore: NotificationStore, eventHub: Hub.EventHub, pushRuntime: bool)
      ensures store == notificationStore && hub == eventHub && hasPushRuntime == pushRuntime && wakes == 0
    {
      store, hub, hasPushRuntime, wakes := notificationStore, eventHub, pushRuntime, 0;
    }

    /** A new row waits, untried, from now on. */
    method EnqueuePush(device: string, eventId: string, access: Option<Access>, now: nat)
      returns (enqueued: Result<bool, Refusal>)
      modifies this, store`rows
      ensures var pushable := hasPushRuntime && Pushable(old(store.Value()), access, device);
              && enqueued == (if !pushable then Ok(false) else if !Storable(now) then Err(Refused)
                              else Ok(RowKey(eventId, device) !in old(store.rows)))
              && store.Value() == (if pushable then Enqueue(old(store.Value()), RowKey(eventId, device), NewRow(now))
                                   else old(store.Value()))
      ensures enqueued == Ok(true) ==>
              store.rows == old(store.rows)[RowKey(eventId, device) := Row(true, Pending, 0, now, None, now)]
      ensures wakes == old(wakes) + if enqueued == Ok(true) then 1 else 0
    {
      if !hasPushRuntime || access.None? || !access.value.named || access.value.publicOrigin.None? {
        return Ok(false);
      }
      var subscription := ActiveSubscription(store.Value(), device);
      if subscription.None? || subscription.value.origin != access.value.publicOrigin.value {
        return Ok(false);
      }
      enqueued := store.EnqueueDelivery(RowKey(eventId, device), NewRow(now));
      if enqueued == Ok(true) {
        wakes := wakes + 1;
      }
    }

    /** The loop body: the live envelope first, then the outbox row. */
    method ServeTarget(eventId: string, envelope: Hub.Envelope, access: Option<Access>, targets: seq<Settings>,
                       clock: nat -> nat, i: nat, ghost before: Store)
      returns (ok: bool)
      requires hub.Valid() && i < |targets| && (access.Some? ==> hasPushRuntime)
      requires Served(before, store.Value(), access, eventId, targets, clock, i)
      modifies this, store`rows, hub
      ensures hub.Valid() && hub.snapshots == old(hub.snapshots)
      ensures hub.channel == old(hub.channel) + [Hub.Targeted(Some(targets[i].deviceId), envelope)]
      ensures ok <==> !RefusedAt(before, access, targets, clock, i)
      ensures Served(before, store.Value(), access, eventId, targets, clock, if ok then i + 1 else i)
      ensures wakes == old(wakes) + |store.rows| - |old(store.rows)|
    {
      hub.PublishToDevice(targets[i].deviceId, envelope);
      ServedStep(before, store.Value(), access, eventId, targets, clock, i);
      var enqueued := EnqueuePush(targets[i].deviceId, eventId, access, clock(i));
      ok := enqueued.Ok?;
    }

    /** `enabled` is the result of the settings query; `access` is read once, before the loop.  The dispatch
        fails at the first target whose insert is refused: that target and those before it have their envelope. */
    method Dispatch(eventId: string, kind: AlertKind, envelope: Hub.Envelope, enabled: seq<Settings>,
                    current: Option<Access>, clock: nat -> nat, receivers: nat -> nat)
      returns (deliveries: Result<nat, Refusal>, ghost served: nat)
      requires hub.Valid()
      modifies this, store`rows, hub
      ensures hub.Valid() && hub.snapshots == old(hub.snapshots)
      ensures var targets, access := Filter(Wants(kind), enabled), if hasPushRuntime then current else None;
              && served <= |targets|
              && Served(old(store.Value()), store.Value(), access, eventId, targets, clock, served)
              && if served == |targets| then
                   deliveries == Ok(Deliveries(receivers, served))
                   && hub.channel == old(hub.channel) + Envelopes(targets, envelope)
                 else
                   deliveries == Err(Refused) && RefusedAt(old(store.Value()), access, targets, clock, served)
                   && hub.channel == old(hub.channel) + Envelopes(targets[..served + 1], envelope)
      ensures wakes == old(wakes) + |store.rows| - |old(store.rows)|
    {
      var access := if hasPushRuntime then current else None;
      var targets := Filter(Wants(kind), enabled);
      ghost var before, channel := store.Value(), hub.channel;
      var total := 0;
      for i := 0 to |targets|
        invariant hub.Valid() && hub.snapshots == old(hub.snapshots)
        invariant total == Deliveries(receivers, i)
        invariant hub.channel == channel + Envelopes(targets[..i], envelope)
        invariant Served(before, store.Value(), access, eventId, targets, clock, i)
        invariant wakes == old(wakes) + |store.rows| - |before.rows|
      {
        EnvelopesStep(channel, envelope, targets, i);
        var ok := ServeTarget(eventId, envelope, access, targets, clock, i, before);
        if !ok {
          return Err(Refused), i;
        }
        total := total + receivers(i);
      }
      assert targets[..|targets|] == targets;
      deliveries, served := Ok(total), |targets|;
    }
  }

  /** The first `i` targets have been served, and none of their inserts was refused. */
  ghost predicate Served(before: Store, store: Store, access: Option<Access>, eventId: string, targets: seq<Settings>,
                         clock: nat -> nat, i: nat)
    requires i <= |targets|
  {
    && store == Enqueued(before, access, eventId, targets[..i], clock)
    && store.subscriptions == before.subscriptions
    && forall j :: 0 <= j < i ==> !RefusedAt(before, access, targets, clock, j)
  }

  lemma EnvelopesStep(channel: seq<Hub.Published>, envelope: Hub.Envelope, targets: seq<Settings>, i: nat)
    requires i < |targets|
    ensures channel + Envelopes(targets[..i + 1], envelope)
         == channel + Envelopes(targets[..i], envelope) + [Hub.Targeted(Some(targets[i].deviceId), envelope)]
  {
    assert Envelopes(targets[..i + 1], envelope)
        == Envelopes(targets[..i], envelope) + [Hub.Targeted(Some(targets[i].deviceId), envelope)];
  }

  lemma ServedStep(before: Store, store: Store, access: Option<Access>, eventId: string, targets: seq<Settings>,
                   clock: nat -> nat, i: nat)
    requires i < |targets| && Served(before, store, access, eventId, targets, clock, i)
    ensures var device := targets[i].deviceId;
            && (Pushable(store, access, device) <==> Pushable(before, access, device))
            && if RefusedAt(before, access, targets, clock, i) then
                 Enqueue(store, RowKey(eventId, device), NewRow(clock(i))) == store
               else
                 Served(before, if Pushable(store, access, device) then Enqueue(store, RowKey(eventId, device), NewRow(clock(i))) else store,
                        access, eventId, targets, clock, i + 1)
  {
    assert targets[..i + 1][..i] == targets[..i];
  }

  /** Rows are added only for the event and for reachable targets, and rows that exist already stay as they are. */
  ghost predicate OnlyAdds(store: Store, after: Store, access: Option<Access>, eventId: string, targets: seq<Settings>) {
    && after.subscriptions == store.subscriptions
    && (forall k :: k in store.rows ==> k in after.rows && after.rows[k] == store.rows[k])
    && (forall k :: k in after.rows && k !in store.rows ==>
          k.eventId == eventId && Pushable(store, access, k.deviceId)
          && (exists i :: 0 <= i < |targets| && targets[i].deviceId == k.deviceId)
          && after.rows[k].status == Pending && after.rows[k].attempts == 0)
  }

  /** Every reachable target gets its row, unless the insert is refused. */
  lemma {:induction false} EnqueuedRows(
    store: Store, access: Option<Access>, eventId: string, targets: seq<Settings>, clock: nat -> nat)
    ensures var after := Enqueued(store, access, eventId, targets, clock);
            && OnlyAdds(store, after, access, eventId, targets)
            && (forall i :: 0 <= i < |targets| && Pushable(store, access, targets[i].deviceId) && Storable(clock(i)) ==>
                RowKey(eventId, targets[i].deviceId) in after.rows)
  {
    if targets != [] {
      var n := |targets| - 1;
      EnqueuedRows(store, access, eventId, targets[..n], clock);
      var before := Enqueued(store, access, eventId, targets[..n], clock);
      assert OnlyAdds(store, before, access, eventId, targets) by {
        assert forall i :: 0 <= i < n ==> targets[..n][i] == targets[i];
      }
      assert forall i :: 0 <= i < n ==> targets[..n][i] == targets[i];
      assert targets[n].deviceId == targets[n].deviceId;
    }
  }

  /**
   Dispatching an alert again resets no row, whatever became of it, and while the rows of the first dispatch
   exist it adds none except for targets whose insert the store then refused.
   */
  lemma RedispatchIsIdempotent(
    store: Store, later: Store, access: Option<Access>, eventId: string, targets: seq<Settings>,
    clock: nat -> nat, clock': nat -> nat)
    requires later.subscriptions == store.subscriptions
    requires Enqueued(store, access, eventId, targets, clock).rows.Keys <= later.rows.Keys
    ensures var again := Enqueued(later, access, eventId, targets, clock');
            && OnlyAdds(later, again, access, eventId, targets)
            && (forall k :: k in again.rows && k !in later.rows ==> RefusedDevice(store, access, targets, clock, k.deviceId))
            && ((forall i :: 0 <= i < |targets| ==> !RefusedAt(store, access, targets, clock, i)) ==> again == later)
  {
    var again := Enqueued(later, access, eventId, targets, clock');
    EnqueuedRows(later, access, eventId, targets, clock');
    forall k | k in again.rows && k !in later.rows
      ensures RefusedDevice(store, access, targets, clock, k.deviceId)
    {
      MissingWasRefused(store, later, access, eventId, targets, clock, k.deviceId);
    }
    if forall i :: 0 <= i < |targets| ==> !RefusedAt(store, access, targets, clock, i) {
      assert again.rows.Keys == later.rows.Keys;
      NothingAdded(later, again, access, eventId, targets);
    }
  }

  lemma NothingAdded(store: Store, after: Store, access: Option<Access>, eventId: string, targets: seq<Settings>)
    requires OnlyAdds(store, after, access, eventId, targets) && after.rows.Keys == store.rows.Keys
    ensures after == store
  {
    assert after.rows == store.rows;
  }

  /** A reachable target without a row was refused one. */
  lemma MissingWasRefused(
    store: Store, later: Store, access: Option<Access>, eventId: string, targets: seq<Settings>, clock: nat -> nat, device: string)
    requires Enqueued(store, access, eventId, targets, clock).rows.Keys <= later.rows.Keys
    requires Pushable(store, access, device) && RowKey(eventId, device) !in later.rows
    requires exists i :: 0 <= i < |targets| && targets[i].deviceId == device
    ensures RefusedDevice(store, access, targets, clock, device)
  {
    EnqueuedRows(store, access, eventId, targets, clock);
    var i :| 0 <= i < |targets| && targets[i].deviceId == device;
    assert RefusedAt(store, access, targets, clock, i);
  }

  ghost predicate RefusedDevice(store: Store, access: Option<Access>, targets: seq<Settings>, clock: nat -> nat, device: string) {
    exists i :: 0 <= i < |targets| && targets[i].deviceId == device && RefusedAt(store, access, targets, clock, i)
  }
}
