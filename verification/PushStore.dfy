/**
 The notification store's outbox and subscription tables.  A table is a map keyed by its primary key;
 the class updates both in place, and each method is tied to a function on the pair of tables.
 */
module PushStore {
  import opened Sqlite
  import opened Text
  import opened Wrappers

  const U32_MAX: nat := 0xFFFF_FFFF
  const U64_MAX: nat := 0xFFFF_FFFF_FFFF_FFFF

  datatype RowKey = RowKey(eventId: string, deviceId: string)

  datatype Status = Pending | Sending | Sent | InvalidSubscription | Failed

  /** `payloadOk` says whether the stored JSON parses as a push payload. */
  datatype Row = Row(
    payloadOk: bool, status: Status, attempts: nat, nextAttemptAt: nat, lastError: Option<string>, updatedAt: nat)

  datatype Subscription = Subscription(origin: string, lastSuccessAt: Option<nat>, invalidatedAt: Option<nat>)

  datatype Store = Store(rows: map<RowKey, Row>, subscriptions: map<string, Subscription>)

  function SaturatingAdd(a: nat, b: nat, max: nat): nat {
    if a + b < max then a + b else max
  }

  // ------------------------------------------------------------ row functions

  function Claimed(row: Row, now: nat): Row {
    row.(status := Sending, attempts := SaturatingAdd(row.attempts, 1, U32_MAX), updatedAt := now)
  }

  function Updated(row: Row, status: Status, nextAttemptAt: Option<nat>, category: Option<string>, now: nat): Row {
    row.(status := status,
         nextAttemptAt := if nextAttemptAt.Some? then nextAttemptAt.value else row.nextAttemptAt,
         lastError := category, updatedAt := now)
  }

  function Failing(row: Row, category: string, now: nat): Row {
    if row.status == Pending || row.status == Sending then row.(status := Failed, lastError := Some(category), updatedAt := now)
    else row
  }

  function Recovered(row: Row): Row {
    if row.status == Sending then row.(status := Pending) else row
  }

  // ---------------------------------------------------------- table functions

  predicate RowStorable(row: Row) {
    Storable(row.nextAttemptAt) && Storable(row.updatedAt)
  }

  function Enqueue(s: Store, k: RowKey, row: Row): Store {
    if k in s.rows || !RowStorable(row) then s else s.(rows := s.rows[k := row])
  }

  function ClaimRow(s: Store, k: RowKey, now: nat): Store
    requires k in s.rows
  {
    s.(rows := s.rows[k := Claimed(s.rows[k], now)])
  }

  predicate UpdateStorable(nextAttemptAt: Option<nat>, now: nat) {
    Storable(now) && (nextAttemptAt.Some? ==> Storable(nextAttemptAt.value))
  }

  function UpdateStatus(s: Store, k: RowKey, status: Status, nextAttemptAt: Option<nat>, category: Option<string>,
                        now: nat): Store {
    if k in s.rows && UpdateStorable(nextAttemptAt, now)
    then s.(rows := s.rows[k := Updated(s.rows[k], status, nextAttemptAt, category, now)])
    else s
  }

  function MarkSent(s: Store, k: RowKey, now: nat): Store {
    var s' := UpdateStatus(s, k, Sent, None, None, now);
    if ActiveSubscription(s, k.deviceId).Some? && Storable(now)
    then s'.(subscriptions := s.subscriptions[k.deviceId := s.subscriptions[k.deviceId].(lastSuccessAt := Some(now))])
    else s'
  }

  function MarkRetry(s: Store, k: RowKey, nextAttemptAt: nat, category: string, now: nat): Store {
    UpdateStatus(s, k, Pending, Some(nextAttemptAt), Some(category), now)
  }

  function MarkInvalid(s: Store, k: RowKey, now: nat): Store {
    UpdateStatus(s, k, InvalidSubscription, None, Some("push_invalid_subscription"), now)
  }

  function MarkFailed(s: Store, k: RowKey, category: string, now: nat): Store {
    UpdateStatus(s, k, Failed, None, Some(category), now)
  }

  function FailPending(s: Store, category: string, now: nat): Store {
    if Storable(now) then s.(rows := map k | k in s.rows :: Failing(s.rows[k], category, now)) else s
  }

  function Invalidate(s: Store, device: string, now: nat): Store {
    if device in s.subscriptions && Storable(now)
    then s.(subscriptions := s.subscriptions[device := s.subscriptions[device].(invalidatedAt := Some(now))])
    else s
  }

  function DeleteDevice(s: Store, device: string): Store {
    Store(map k | k in s.rows && k.deviceId != device :: s.rows[k], s.subscriptions - {device})
  }

  function Reopen(s: Store): Store {
    s.(rows := map k | k in s.rows :: Recovered(s.rows[k]))
  }

  function ActiveSubscription(s: Store, device: string): Option<Subscription> {
    if device in s.subscriptions && s.subscriptions[device].invalidatedAt.None? then Some(s.subscriptions[device]) else None
  }

  // ------------------------------------------------------------ the due order

  predicate Due(rows: map<RowKey, Row>, now: nat, k: RowKey) {
    k in rows && rows[k].status == Pending && rows[k].nextAttemptAt <= now
  }

  /** `ORDER BY next_attempt_at, updated_at, event_id, device_id`. */
  predicate Before(rows: map<RowKey, Row>, a: RowKey, b: RowKey)
    requires a in rows && b in rows
  {
    || rows[a].nextAttemptAt < rows[b].nextAttemptAt
    || (rows[a].nextAttemptAt == rows[b].nextAttemptAt
        && (|| rows[a].updatedAt < rows[b].updatedAt
            || (rows[a].updatedAt == rows[b].updatedAt
                && (|| Less(a.eventId, b.eventId)
                    || (a.eventId == b.eventId && Less(a.deviceId, b.deviceId))))))
  }

  /** Of two waiting rows the claim takes the one whose attempt is due earlier, then the one updated earlier, then
      the one with the lesser event id, and then the one with the lesser device id. */
  predicate ClaimedFirst(a: Row, k: RowKey, b: Row, other: RowKey) {
    if a.nextAttemptAt != b.nextAttemptAt then a.nextAttemptAt < b.nextAttemptAt
    else if a.updatedAt != b.updatedAt then a.updatedAt < b.updatedAt
    else if k.eventId != other.eventId then Less(k.eventId, other.eventId)
    else Less(k.deviceId, other.deviceId)
  }

  lemma BeforeSpelledOut(rows: map<RowKey, Row>, a: RowKey, b: RowKey)
    requires a in rows && b in rows && a != b
    ensures Before(rows, a, b) <==> ClaimedFirst(rows[a], a, rows[b], b)
  {
    LessIrreflexive(a.eventId);
  }

  /** The row waits, its time has come, and no other such row is claimed before it. */
  ghost predicate FirstInLine(rows: map<RowKey, Row>, now: nat, k: RowKey) {
    && k in rows && rows[k].status == Pending && rows[k].nextAttemptAt <= now
    && forall other :: other in rows && other != k && rows[other].status == Pending && rows[other].nextAttemptAt <= now
         ==> ClaimedFirst(rows[k], k, rows[other], other)
  }

  lemma NextIsFirstInLine(rows: map<RowKey, Row>, now: nat, k: RowKey)
    requires NextDue(rows, now, k)
    ensures FirstInLine(rows, now, k)
  {
    forall other | other in rows && other != k && rows[other].status == Pending && rows[other].nextAttemptAt <= now
      ensures ClaimedFirst(rows[k], k, rows[other], other)
    {
      BeforeSpelledOut(rows, k, other);
    }
  }

  lemma BeforeTotal(rows: map<RowKey, Row>, a: RowKey, b: RowKey)
    requires a in rows && b in rows
    ensures a == b || Before(rows, a, b) || Before(rows, b, a)
  {
    LessTotal(a.eventId, b.eventId);
    LessTotal(a.deviceId, b.deviceId);
  }

  lemma BeforeTransitive(rows: map<RowKey, Row>, a: RowKey, b: RowKey, c: RowKey)
    requires a in rows && b in rows && c in rows
    requires Before(rows, a, b) && Before(rows, b, c)
    ensures Before(rows, a, c)
  {
    if Less(a.eventId, b.eventId) && Less(b.eventId, c.eventId) {
      LessTransitive(a.eventId, b.eventId, c.eventId);
    }
    if Less(a.deviceId, b.deviceId) && Less(b.deviceId, c.deviceId) {
      LessTransitive(a.deviceId, b.deviceId, c.deviceId);
    }
  }

  /** The row that the claiming query selects. */
  predicate NextDue(rows: map<RowKey, Row>, now: nat, k: RowKey) {
    Due(rows, now, k) && forall other | other in rows :: Due(rows, now, other) && other != k ==> Before(rows, k, other)
  }

  ghost function DueKeys(rows: map<RowKey, Row>, now: nat): set<RowKey> {
    set k | k in rows && Due(rows, now, k)
  }

  lemma {:induction false} FirstOf(rows: map<RowKey, Row>, keys: set<RowKey>) returns (first: RowKey)
    requires keys != {} && keys <= rows.Keys
    ensures first in keys && forall k :: k in keys && k != first ==> Before(rows, first, k)
    decreases |keys|
  {
    var k :| k in keys;
    if keys == {k} {
      first := k;
    } else {
      var rest := FirstOf(rows, keys - {k});
      BeforeTotal(rows, k, rest);
      if Before(rows, k, rest) {
        first := k;
        forall other | other in keys && other != k ensures Before(rows, k, other) {
          if other != rest {
            BeforeTransitive(rows, k, rest, other);
          }
        }
      } else {
        first := rest;
      }
    }
  }

  lemma NextDueExists(rows: map<RowKey, Row>, now: nat)
    requires DueKeys(rows, now) != {}
    ensures exists k :: k in rows && NextDue(rows, now, k)
  {
    var first := FirstOf(rows, DueKeys(rows, now));
    assert NextDue(rows, now, first);
  }

  // --------------------------------------------------------------- the class

  class NotificationStore {
    var rows: map<RowKey, Row>
    var subscriptions: map<string, Subscription>

    /** Opening a database gives rows left in `sending` by a crash back to the queue. */
    constructor Open(database: Store)
      ensures Value() == Reopen(database)
      ensures rows.Keys == database.rows.Keys && subscriptions == database.subscriptions
      ensures forall k :: k in rows ==>
                rows[k] == if database.rows[k].status == Sending then database.rows[k].(status := Pending) else database.rows[k]
    {
      rows := map k | k in database.rows :: Recovered(database.rows[k]);
      subscriptions := database.subscriptions;
    }

    function Value(): Store
      reads this
    {
      Store(rows, subscriptions)
    }

    method EnqueueDelivery(k: RowKey, row: Row) returns (inserted: Result<bool, Refusal>)
      modifies this`rows
      ensures Value() == Enqueue(old(Value()), k, row)
      ensures inserted == if RowStorable(row) then Ok(k !in old(rows)) else Err(Refused)
    {
      if row.nextAttemptAt > I64_MAX || row.updatedAt > I64_MAX {
        return Err(Refused);
      }
      inserted := Ok(k !in rows);
      if k !in rows {
        rows := rows[k := row];
      }
    }

    method ClaimNextDueDelivery(now: nat) returns (claimed: Result<Option<(RowKey, Row)>, Refusal>)
      modifies this`rows
      ensures claimed.Err? <==> !Storable(now)
      ensures claimed.Err? || claimed == Ok(None) ==> rows == old(rows)
      ensures claimed == Ok(None) ==> DueKeys(old(rows), now) == {}
      ensures claimed.Ok? && claimed.value.Some? ==>
                var k := claimed.value.value.0;
                && NextDue(old(rows), now, k)
                && claimed.value.value.1 == Claimed(old(rows)[k], now)
                && Value() == ClaimRow(old(Value()), k, now)
                && claimed.value.value.1
                   == old(rows)[k].(status := Sending, updatedAt := now,
                                    attempts := if old(rows)[k].attempts < U32_MAX then old(rows)[k].attempts + 1 else U32_MAX)
                && rows == old(rows)[k := claimed.value.value.1]
                && FirstInLine(old(rows), now, k)
    {
      if now > I64_MAX {
        return Err(Refused);
      }
      var due := set k | k in rows && Due(rows, now, k);
      assert due == DueKeys(rows, now);
      if due == {} {
        return Ok(None);
      }
      NextDueExists(rows, now);
      var k :| k in rows && NextDue(rows, now, k);
      var row := Claimed(rows[k], now);
      NextIsFirstInLine(rows, now, k);
      rows := rows[k := row];
      claimed := Ok(Some((k, row)));
    }

    method UpdateDeliveryStatus(k: RowKey, status: Status, nextAttemptAt: Option<nat>, category: Option<string>, now: nat)
      returns (ok: bool)
      modifies this`rows
      ensures ok <==> UpdateStorable(nextAttemptAt, now)
      ensures Value() == UpdateStatus(old(Value()), k, status, nextAttemptAt, category, now)
      ensures ok && k in old(rows) ==>
              rows == old(rows)[k := old(rows)[k].(status := status, lastError := category, updatedAt := now,
                                                   nextAttemptAt := if nextAttemptAt.None? then old(rows)[k].nextAttemptAt
                                                                    else nextAttemptAt.value)]
      ensures !ok || k !in old(rows) ==> rows == old(rows)
    {
      ok := now <= I64_MAX && (nextAttemptAt.None? || nextAttemptAt.value <= I64_MAX);
      if ok && k in rows {
        rows := rows[k := Updated(rows[k], status, nextAttemptAt, category, now)];
      }
    }

    method MarkDeliverySent(k: RowKey, now: nat) returns (ok: bool)
      modifies this
      ensures ok <==> Storable(now)
      ensures Value() == MarkSent(old(Value()), k, now)
    {
      ok := UpdateDeliveryStatus(k, Sent, None, None, now);
      if ok && k.deviceId in subscriptions && subscriptions[k.deviceId].invalidatedAt.None? {
        subscriptions := subscriptions[k.deviceId := subscriptions[k.deviceId].(lastSuccessAt := Some(now))];
      }
    }

    method FailPendingDeliveries(category: string, now: nat) returns (changed: Result<nat, Refusal>)
      modifies this`rows
      ensures Value() == FailPending(old(Value()), category, now)
      ensures changed == if Storable(now) then Ok(|set k | k in old(rows) && old(rows)[k].status in {Pending, Sending}|)
                         else Err(Refused)
      ensures rows.Keys == old(rows).Keys
      ensures Storable(now) ==> forall k :: k in rows ==>
                rows[k] == if old(rows)[k].status == Pending || old(rows)[k].status == Sending
                           then old(rows)[k].(status := Failed, lastError := Some(category), updatedAt := now)
                           else old(rows)[k]
    {
      if now > I64_MAX {
        return Err(Refused);
      }
      changed := Ok(|set k | k in rows && rows[k].status in {Pending, Sending}|);
      rows := map k | k in rows :: Failing(rows[k], category, now);
    }

    method InvalidateSubscription(device: string, now: nat) returns (ok: bool)
      modifies this`subscriptions
      ensures ok <==> Storable(now)
      ensures Value() == Invalidate(old(Value()), device, now)
    {
      ok := now <= I64_MAX;
      if ok && device in subscriptions {
        subscriptions := subscriptions[device := subscriptions[device].(invalidatedAt := Some(now))];
      }
    }

    /** Both `delete_subscription` and `delete_device_notification_data`, as far as these tables go. */
    method DeleteDeviceRows(device: string)
      modifies this
      ensures Value() == DeleteDevice(old(Value()), device)
    {
      subscriptions := subscriptions - {device};
      rows := map k | k in rows && k.deviceId != device :: rows[k];
    }
  }
}
