/** The push delivery worker: claiming due rows, sending them, and recording what came of it. */
module PushWorker {
  import opened Sequences
  import opened Sqlite
  import opened Text
  import opened Wrappers
  import opened PushStore

  const RETRY_DELAYS_MS: seq<nat> := [1_000, 2_000, 4_000]

  datatype Access = Access(named: bool, publicOrigin: Option<string>)

  datatype SendResult = Accepted | SubscriptionGone | Retryable | Permanent

  /** The transport may be used for this subscription under the public access in force. */
  predicate MaySend(access: Access, subscription: Subscription) {
    access.named && access.publicOrigin == Some(subscription.origin)
  }

  function RetryIndex(attempts: nat): nat {
    if attempts == 0 then 0 else attempts - 1
  }

  function RetryAt(attempts: nat, now: nat): nat
    requires attempts <= 3
  {
    SaturatingAdd(now, RETRY_DELAYS_MS[RetryIndex(attempts)], U64_MAX)
  }

  /** The retry would be due at a time that the store does not take. */
  predicate RetryRefused(row: Row, now: nat, result: SendResult) {
    result == Retryable && row.attempts <= 3 && !Storable(RetryAt(row.attempts, now))
  }

  /** What the worker records once the transport has answered. */
  function Settle(s: Store, k: RowKey, row: Row, now: nat, result: SendResult): Store {
    match result
    case Accepted => MarkSent(s, k, now)
    case SubscriptionGone => MarkInvalid(Invalidate(s, k.deviceId, now), k, now)
    case Retryable =>
      if row.attempts <= 3 then MarkRetry(s, k, RetryAt(row.attempts, now), "push_retryable", now)
      else MarkFailed(s, k, "push_retryable", now)
    case Permanent => MarkFailed(s, k, "push_permanent", now)
  }

  /** Processing the claimed copy `row` of row `k` with nobody else writing. */
  function Process(s: Store, k: RowKey, row: Row, now: nat, access: Access, result: SendResult): Store {
    if !row.payloadOk then MarkFailed(s, k, "invalid_push_payload", now)
    else
      var subscription := ActiveSubscription(s, k.deviceId);
      if subscription.None? then MarkInvalid(s, k, now)
      else if !MaySend(access, subscription.value) then MarkInvalid(Invalidate(s, k.deviceId, now), k, now)
      else Settle(s, k, row, now, result)
  }

  /** The device has an active subscription that the access in force still covers. */
  predicate Sendable(s: Store, access: Access, device: string) {
    var subscription := ActiveSubscription(s, device);
    subscription.Some? && MaySend(access, subscription.value)
  }

  /** Processing ends in an error: the only write the store can refuse at a storable time is the retry. */
  predicate ProcessFails(s: Store, k: RowKey, row: Row, now: nat, access: Access, result: SendResult) {
    row.payloadOk && Sendable(s, access, k.deviceId) && RetryRefused(row, now, result)
  }

  /** One turn of the drain loop. */
  function Serve(s: Store, k: RowKey, now: nat, access: Access, send: (RowKey, nat) -> SendResult): Store {
    if k !in s.rows then s
    else
      var claimed := ClaimRow(s, k, now);
      Process(claimed, k, claimed.rows[k], now, access, send(k, claimed.rows[k].attempts))
  }

  predicate ServeFails(s: Store, k: RowKey, now: nat, access: Access, send: (RowKey, nat) -> SendResult)
    requires k in s.rows
  {
    var row := Claimed(s.rows[k], now);
    ProcessFails(s, k, row, now, access, send(k, row.attempts))
  }

  function ServeAll(s: Store, order: seq<RowKey>, now: nat, access: Access, send: (RowKey, nat) -> SendResult): Store
    decreases |order|
  {
    var n := |order|;
    if n == 0 then s else Serve(ServeAll(s, order[..n - 1], now, access, send), order[n - 1], now, access, send)
  }

  // -------------------------------------------------------- what a turn does

  /** For every attempt the table has a delay; the retry is storable exactly while the sum is, and then later. */
  lemma RetryIsLater(attempts: nat, now: nat)
    requires attempts <= 3
    ensures RetryIndex(attempts) < |RETRY_DELAYS_MS|
    ensures Storable(RetryAt(attempts, now)) <==> now + RETRY_DELAYS_MS[RetryIndex(attempts)] <= I64_MAX
    ensures Storable(RetryAt(attempts, now)) ==> RetryAt(attempts, now) == now + RETRY_DELAYS_MS[RetryIndex(attempts)] > now
  {
    assert RETRY_DELAYS_MS[RetryIndex(attempts)] >= 1000;
  }

  /** A served row ends its wait, or waits again for a later attempt with one more attempt counted. */
  ghost predicate ServedRow(before: Row, after: Row, now: nat) {
    && after.attempts == SaturatingAdd(before.attempts, 1, U32_MAX)
    && after.status != Sending
    && after.updatedAt == now
    && (after.status == Pending ==>
          && before.attempts < 3
          && after.nextAttemptAt == now + RETRY_DELAYS_MS[before.attempts])
  }

  /** Settling writes to the one row, if it is still there, and never leaves it in `sending`, unless the
      store refuses the retry: then nothing is written at all. */
  lemma SettleEffect(s: Store, k: RowKey, row: Row, now: nat, result: SendResult)
    requires Storable(now)
    ensures var t := Settle(s, k, row, now, result);
      if RetryRefused(row, now, result) then t == s
      else if k !in s.rows then t.rows == s.rows
      else
        && k in t.rows && t.rows == s.rows[k := t.rows[k]]
        && t.rows[k].attempts == s.rows[k].attempts && t.rows[k].status != Sending
        && (t.rows[k].status == Pending ==> result == Retryable && row.attempts <= 3)
        && (t.rows[k].status == Sent ==> result == Accepted)
  {
  }

  /** Settling takes a failed row out of `failed` unless the verdict is another failure or is refused. */
  lemma SettleOverFailed(s: Store, k: RowKey, row: Row, now: nat, result: SendResult)
    requires Storable(now) && k in s.rows && s.rows[k].status == Failed
    ensures var t := Settle(s, k, row, now, result);
      && k in t.rows
      && (t.rows[k].status == Failed <==>
            result == Permanent || (result == Retryable && (row.attempts > 3 || RetryRefused(row, now, result))))
  {
  }

  /** Every outcome touches the one row only, keeps its attempt count, and never leaves it in `sending`;
      a refused retry touches nothing. */
  lemma ProcessEffect(s: Store, k: RowKey, row: Row, now: nat, access: Access, result: SendResult)
    requires k in s.rows && Storable(now)
    ensures var t := Process(s, k, row, now, access, result);
      if ProcessFails(s, k, row, now, access, result) then t == s
      else
        && t.rows == s.rows[k := t.rows[k]]
        && t.rows[k].attempts == s.rows[k].attempts
        && t.rows[k].status != Sending
        && t.rows[k].updatedAt == now
        && (t.rows[k].status == Pending ==>
              row.attempts <= 3 && t.rows[k].nextAttemptAt == now + RETRY_DELAYS_MS[RetryIndex(row.attempts)])
  {
    if row.attempts <= 3 {
      RetryIsLater(row.attempts, now);
    }
  }

  lemma ServeEffect(s: Store, k: RowKey, now: nat, access: Access, send: (RowKey, nat) -> SendResult)
    requires k in s.rows && Storable(now)
    ensures var t := Serve(s, k, now, access, send);
      if ServeFails(s, k, now, access, send) then t == ClaimRow(s, k, now)
      else
        && t.rows.Keys == s.rows.Keys
        && (forall other :: other in s.rows && other != k ==> t.rows[other] == s.rows[other])
        && ServedRow(s.rows[k], t.rows[k], now)
  {
    var claimed := ClaimRow(s, k, now);
    ProcessEffect(claimed, k, claimed.rows[k], now, access, send(k, claimed.rows[k].attempts));
  }

  /** Each turn takes exactly the served row out of the due ones: the drain ends. */
  lemma ServeReducesDue(before: map<RowKey, Row>, after: map<RowKey, Row>, k: RowKey, now: nat)
    requires Due(before, now, k) && after.Keys == before.Keys && ServedRow(before[k], after[k], now)
    requires forall other :: other in before && other != k ==> after[other] == before[other]
    ensures !Due(after, now, k)
    ensures DueKeys(after, now) == DueKeys(before, now) - {k}
    ensures |DueKeys(after, now)| < |DueKeys(before, now)|
  {
    assert DueKeys(after, now) == DueKeys(before, now) - {k};
  }

  /** Both rows exist and the query lists `a` in front of `b`. */
  ghost predicate Precedes(rows: map<RowKey, Row>, a: RowKey, b: RowKey) {
    a in rows && b in rows && Before(rows, a, b)
  }

  // ------------------------------------------------- when the store refuses

  /** What the transport will answer for row `k`, whose attempts the claim has counted up. */
  function Answer(rows: map<RowKey, Row>, send: (RowKey, nat) -> SendResult, k: RowKey): SendResult
    requires k in rows
  {
    send(k, SaturatingAdd(rows[k].attempts, 1, U32_MAX))
  }

  /** Transmitting `j` would end the subscription of its device. */
  predicate Ends(rows: map<RowKey, Row>, send: (RowKey, nat) -> SendResult, j: RowKey) {
    j in rows && rows[j].payloadOk && Answer(rows, send, j) == SubscriptionGone
  }

  ghost predicate EndedBefore(s: Store, now: nat, send: (RowKey, nat) -> SendResult, k: RowKey) {
    exists j :: Due(s.rows, now, j) && j.deviceId == k.deviceId && Ends(s.rows, send, j) && Precedes(s.rows, j, k)
  }

  /** Row `k` is transmitted in its turn and answered with a retry that the store will not take. */
  ghost predicate Doomed(s: Store, now: nat, access: Access, send: (RowKey, nat) -> SendResult, k: RowKey) {
    && Due(s.rows, now, k) && ServeFails(s, k, now, access, send)
    && !EndedBefore(s, now, send, k)
  }

  /** Some due row can still be sent and, if the transport asks for a retry, cannot be put off. */
  ghost predicate TooLate(s: Store, now: nat, access: Access) {
    exists k :: Due(s.rows, now, k) && Postponable(s, access, k) && now + RETRY_DELAYS_MS[s.rows[k].attempts] > I64_MAX
  }

  predicate Postponable(s: Store, access: Access, k: RowKey) {
    k in s.rows && s.rows[k].payloadOk && s.rows[k].attempts < 3 && Sendable(s, access, k.deviceId)
  }

  function AlwaysRetry(k: RowKey, attempts: nat): SendResult {
    Retryable
  }

  /** A drain can be doomed by some transport exactly when it comes too late; the one that always asks for a
      retry is such a transport.  Four seconds before the last storable time it never is. */
  lemma DoomIsLateness(s: Store, now: nat, access: Access, send: (RowKey, nat) -> SendResult)
    ensures (exists k :: Doomed(s, now, access, send, k)) ==> TooLate(s, now, access)
    ensures TooLate(s, now, access) <==> exists k :: Doomed(s, now, access, AlwaysRetry, k)
    ensures TooLate(s, now, access) ==> now + 4000 > I64_MAX
  {
    if k :| Doomed(s, now, access, send, k) {
      RetryIsLater(Claimed(s.rows[k], now).attempts, now);
      assert Postponable(s, access, k);
    }
    if k :| Doomed(s, now, access, AlwaysRetry, k) {
      RetryIsLater(Claimed(s.rows[k], now).attempts, now);
      assert Postponable(s, access, k);
    }
    if TooLate(s, now, access) {
      var k :| Due(s.rows, now, k) && Postponable(s, access, k) && now + RETRY_DELAYS_MS[s.rows[k].attempts] > I64_MAX;
      RetryIsLater(Claimed(s.rows[k], now).attempts, now);
      assert Doomed(s, now, access, AlwaysRetry, k);
    }
  }

  // ------------------------------------------------------------ the drain loop

  /** `order` lists due rows, each once, in query order and in front of every due row it leaves out. */
  ghost predicate InQueryOrder(initial: map<RowKey, Row>, now: nat, order: seq<RowKey>) {
    && NoDup(order)
    && (forall k :: k in order ==> Due(initial, now, k))
    && (forall i, j :: 0 <= i < j < |order| ==> Precedes(initial, order[i], order[j]))
    && (forall k, rest :: k in order && Due(initial, now, rest) && rest !in order ==> Precedes(initial, k, rest))
  }

  /** Served rows no longer wait; all others are as they were. */
  ghost predicate ServedSoFar(initial: map<RowKey, Row>, rows: map<RowKey, Row>, now: nat, order: seq<RowKey>) {
    && rows.Keys == initial.Keys
    && (forall k :: k in initial && k !in order ==> rows[k] == initial[k])
    && (forall k :: k in order ==> !Due(rows, now, k))
  }

  ghost predicate DrainedSoFar(initial: map<RowKey, Row>, rows: map<RowKey, Row>, now: nat, order: seq<RowKey>) {
    InQueryOrder(initial, now, order) && ServedSoFar(initial, rows, now, order)
  }

  lemma BeforeIrreflexive(rows: map<RowKey, Row>, k: RowKey)
    requires k in rows
    ensures !Before(rows, k, k)
  {
    LessIrreflexive(k.eventId);
    LessIrreflexive(k.deviceId);
  }

  lemma OrderStep(initial: map<RowKey, Row>, now: nat, order: seq<RowKey>, k: RowKey)
    requires InQueryOrder(initial, now, order) && Due(initial, now, k) && k !in order
    requires forall rest :: Due(initial, now, rest) && rest !in order && rest != k ==> Precedes(initial, k, rest)
    ensures InQueryOrder(initial, now, order + [k])
  {
    var order' := order + [k];
    assert forall x :: x in order' <==> x in order || x == k;
    forall i, j | 0 <= i < j < |order'| ensures Precedes(initial, order'[i], order'[j]) {
      if j == |order| {
        assert order[i] in order;
      }
    }
  }

  lemma DrainStep(initial: map<RowKey, Row>, rows: map<RowKey, Row>, after: map<RowKey, Row>, now: nat,
                  order: seq<RowKey>, k: RowKey)
    requires DrainedSoFar(initial, rows, now, order) && NextDue(rows, now, k)
    requires after.Keys == rows.Keys && forall other :: other in rows && other != k ==> after[other] == rows[other]
    requires !Due(after, now, k)
    ensures DrainedSoFar(initial, after, now, order + [k])
  {
    assert k !in order && rows[k] == initial[k];
    forall rest | Due(initial, now, rest) && rest !in order && rest != k ensures Precedes(initial, k, rest) {
      assert rows[rest] == initial[rest] && Due(rows, now, rest);
      assert Before(rows, k, rest);
    }
    OrderStep(initial, now, order, k);
  }

  lemma DrainComplete(initial: map<RowKey, Row>, rows: map<RowKey, Row>, now: nat, order: seq<RowKey>)
    requires DrainedSoFar(initial, rows, now, order) && DueKeys(rows, now) == {}
    ensures Elements(order) == DueKeys(initial, now)
  {
    assert forall k :: Due(initial, now, k) && k !in order ==> k in DueKeys(rows, now);
    assert forall k :: k in Elements(order) <==> k in DueKeys(initial, now);
  }

  /** Which devices can still be sent to, in terms of the store at the start and the rows served so far. */
  ghost predicate SendableSoFar(initial: Store, s: Store, access: Access, send: (RowKey, nat) -> SendResult,
                                order: seq<RowKey>) {
    forall d :: Sendable(s, access, d) <==> Sendable(initial, access, d) && !EndedIn(initial.rows, send, order, d)
  }

  ghost predicate EndedIn(rows: map<RowKey, Row>, send: (RowKey, nat) -> SendResult, order: seq<RowKey>, d: string) {
    exists j :: j in order && j.deviceId == d && Ends(rows, send, j)
  }

  lemma SendableStep(s: Store, k: RowKey, now: nat, access: Access, send: (RowKey, nat) -> SendResult, d: string)
    requires k in s.rows && Storable(now)
    ensures Sendable(Serve(s, k, now, access, send), access, d)
       <==> Sendable(s, access, d) && !(k.deviceId == d && Ends(s.rows, send, k))
  {
  }

  lemma EndedStep(rows: map<RowKey, Row>, send: (RowKey, nat) -> SendResult, order: seq<RowKey>, k: RowKey, d: string)
    ensures EndedIn(rows, send, order + [k], d) <==> EndedIn(rows, send, order, d) || (k.deviceId == d && Ends(rows, send, k))
  {
    assert forall j :: j in order + [k] <==> j in order || j == k;
  }

  /** In its turn a row fails exactly when it was doomed from the start. */
  lemma FailsIffDoomed(initial: Store, s: Store, now: nat, access: Access, send: (RowKey, nat) -> SendResult,
                       order: seq<RowKey>, k: RowKey)
    requires DrainedSoFar(initial.rows, s.rows, now, order) && SendableSoFar(initial, s, access, send, order)
    requires NextDue(s.rows, now, k)
    ensures k in initial.rows && k !in order && s.rows[k] == initial.rows[k]
    ensures ServeFails(s, k, now, access, send) <==> Doomed(initial, now, access, send, k)
  {
    assert k !in order && s.rows[k] == initial.rows[k] && Due(initial.rows, now, k);
    assert EndedIn(initial.rows, send, order, k.deviceId) <==> EndedBefore(initial, now, send, k) by {
      if j :| j in order && j.deviceId == k.deviceId && Ends(initial.rows, send, j) {
        assert Due(initial.rows, now, j) && Precedes(initial.rows, j, k);
      }
      if j :| Due(initial.rows, now, j) && j.deviceId == k.deviceId && Ends(initial.rows, send, j) && Precedes(initial.rows, j, k) {
        EarlierWasServed(initial.rows, s.rows, now, order, j, k);
      }
    }
  }

  lemma EarlierWasServed(initial: map<RowKey, Row>, rows: map<RowKey, Row>, now: nat, order: seq<RowKey>, j: RowKey, k: RowKey)
    requires DrainedSoFar(initial, rows, now, order) && NextDue(rows, now, k)
    requires Due(initial, now, j) && Precedes(initial, j, k)
    ensures j in order
  {
    if j !in order {
      assert rows[j] == initial[j] && Due(rows, now, j);
      BeforeIrreflexive(initial, k);
      assert j != k && Before(rows, k, j);
      assert k !in order && rows[k] == initial[k];
      BeforeTransitive(initial, j, k, j);
      BeforeIrreflexive(initial, j);
    }
  }

  class PushDeliveryWorker {
    const store: NotificationStore

    constructor (store: NotificationStore)
      ensures this.store == store
    {
      this.store := store;
    }

    method ProcessDelivery(k: RowKey, row: Row, now: nat, access: Access, send: (RowKey, nat) -> SendResult)
      returns (ok: bool)
      modifies store
      ensures store.Value() == Process(old(store.Value()), k, row, now, access, send(k, row.attempts))
      ensures ok <==> Storable(now) && !ProcessFails(old(store.Value()), k, row, now, access, send(k, row.attempts))
    {
      if !row.payloadOk {
        ok := store.UpdateDeliveryStatus(k, Failed, None, Some("invalid_push_payload"), now);
        return;
      }
      var subscription := ActiveSubscription(store.Value(), k.deviceId);
      if subscription.None? {
        ok := store.UpdateDeliveryStatus(k, InvalidSubscription, None, Some("push_invalid_subscription"), now);
        return;
      }
      if !access.named || access.publicOrigin != Some(subscription.value.origin) {
        ok := Withdraw(k, now);
        return;
      }
      match send(k, row.attempts) {
        case Accepted =>
          ok := store.MarkDeliverySent(k, now);
        case SubscriptionGone =>
          ok := Withdraw(k, now);
        case Retryable =>
          if row.attempts <= 3 {
            var retryIndex := if row.attempts == 0 then 0 else row.attempts - 1;
            var nextAttemptAt := SaturatingAdd(now, RETRY_DELAYS_MS[retryIndex], U64_MAX);
            ok := store.UpdateDeliveryStatus(k, Pending, Some(nextAttemptAt), Some("push_retryable"), now);
          } else {
            ok := store.UpdateDeliveryStatus(k, Failed, None, Some("push_retryable"), now);
          }
        case Permanent =>
          ok := store.UpdateDeliveryStatus(k, Failed, None, Some("push_permanent"), now);
      }
    }

    /** The subscription and the row are given up together. */
    method Withdraw(k: RowKey, now: nat) returns (ok: bool)
      modifies store
      ensures ok <==> Storable(now)
      ensures store.Value() == MarkInvalid(Invalidate(old(store.Value()), k.deviceId, now), k, now)
    {
      ok := store.InvalidateSubscription(k.deviceId, now);
      if ok {
        ok := store.UpdateDeliveryStatus(k, InvalidSubscription, None, Some("push_invalid_subscription"), now);
      }
    }

    /** Drains with nobody else writing.  It succeeds exactly when the time is storable and no due row is doomed;
        then it serves every initially due row once, in the order of the claiming query.  Otherwise it has
        served the rows in front of the first doomed one, and leaves that one in `sending`. */
    method DrainDueOnceAt(now: nat, access: Access, send: (RowKey, nat) -> SendResult)
      returns (processed: Result<nat, Refusal>, ghost order: seq<RowKey>, ghost stuck: Option<RowKey>)
      modifies store
      ensures !access.named ==> processed == Ok(0) && unchanged(store)
      ensures access.named ==> (processed.Ok? <==> Storable(now) && NobodyDoomed(old(store.Value()), now, access, send))
      ensures access.named && processed.Ok? ==>
              processed.value == |order| && Drained(old(store.Value()), store.Value(), now, access, send, order)
      ensures !Storable(now) ==> unchanged(store)
      ensures access.named && Storable(now) && processed.Err? ==>
              stuck.Some? && StuckAt(old(store.Value()), store.Value(), now, access, send, order, stuck.value)
    {
      processed, order, stuck := Ok(0), [], None;
      if !access.named {
        return;
      }
      ghost var initial := store.Value();
      while true
        invariant processed == Ok(|order|)
        invariant Draining(initial, store.Value(), now, access, send, order)
        invariant !Storable(now) ==> unchanged(store)
        decreases |DueKeys(store.rows, now)|
      {
        ghost var before := store.Value();
        var turn, k := ServeNext(now, access, send);
        if turn.Err? {
          if Storable(now) {
            DrainStuck(initial, before, now, access, send, order, k.value);
          }
          return Err(Refused), order, k;
        }
        if turn.value.None? {
          DrainDone(initial, before, now, access, send, order);
          return;
        }
        DrainingStep(initial, before, now, access, send, order, k.value);
        order := order + [k.value];
        processed := Ok(processed.value + 1);
      }
    }

    /** One turn: claim the next due row, if any, and process it. */
    method ServeNext(now: nat, access: Access, send: (RowKey, nat) -> SendResult)
      returns (served: Result<Option<RowKey>, Refusal>, ghost key: Option<RowKey>)
      modifies store
      ensures key.None? ==> served == (if Storable(now) then Ok(None) else Err(Refused)) && unchanged(store)
      ensures key.None? && Storable(now) ==> DueKeys(old(store.rows), now) == {}
      ensures key.Some? ==>
                && Storable(now) && NextDue(old(store.rows), now, key.value)
                && served == (if ServeFails(old(store.Value()), key.value, now, access, send) then Err(Refused) else Ok(key))
                && store.Value() == Serve(old(store.Value()), key.value, now, access, send)
    {
      var claimed := store.ClaimNextDueDelivery(now);
      if claimed.Err? {
        return Err(Refused), None;
      }
      if claimed.value.None? {
        return Ok(None), None;
      }
      var (k, row) := claimed.value.value;
      var ok := ProcessDelivery(k, row, now, access, send);
      served, key := if ok then Ok(Some(k)) else Err(Refused), Some(k);
    }
  }

  ghost predicate NobodyDoomed(s: Store, now: nat, access: Access, send: (RowKey, nat) -> SendResult) {
    forall k :: !Doomed(s, now, access, send, k)
  }

  /** Every initially due row was served once, in query order, and nothing is due any more. */
  ghost predicate Drained(initial: Store, s: Store, now: nat, access: Access, send: (RowKey, nat) -> SendResult,
                          order: seq<RowKey>) {
    && s == ServeAll(initial, order, now, access, send)
    && DueKeys(s.rows, now) == {}
    && DrainedSoFar(initial.rows, s.rows, now, order)
    && Elements(order) == DueKeys(initial.rows, now)
  }

  /** The rows in `order` were served; row `k` came next and is left in `sending`. */
  ghost predicate StuckAt(initial: Store, s: Store, now: nat, access: Access, send: (RowKey, nat) -> SendResult,
                          order: seq<RowKey>, k: RowKey) {
    var served := ServeAll(initial, order, now, access, send);
    && DrainedSoFar(initial.rows, served.rows, now, order)
    && NextDue(served.rows, now, k) && k in initial.rows && k !in order
    && Doomed(initial, now, access, send, k)
    && s == ClaimRow(served, k, now) && s.rows[k] == Claimed(initial.rows[k], now)
  }

  /** The loop invariant of the drain. */
  ghost predicate Draining(initial: Store, s: Store, now: nat, access: Access, send: (RowKey, nat) -> SendResult,
                           order: seq<RowKey>) {
    && s == ServeAll(initial, order, now, access, send)
    && DrainedSoFar(initial.rows, s.rows, now, order)
    && SendableSoFar(initial, s, access, send, order)
    && forall k :: k in order ==> !Doomed(initial, now, access, send, k)
  }

  lemma DrainingStep(initial: Store, s: Store, now: nat, access: Access, send: (RowKey, nat) -> SendResult,
                     order: seq<RowKey>, k: RowKey)
    requires Draining(initial, s, now, access, send, order) && Storable(now)
    requires NextDue(s.rows, now, k) && !ServeFails(s, k, now, access, send)
    ensures Draining(initial, Serve(s, k, now, access, send), now, access, send, order + [k])
    ensures |DueKeys(Serve(s, k, now, access, send).rows, now)| < |DueKeys(s.rows, now)|
  {
    var t := Serve(s, k, now, access, send);
    ServeEffect(s, k, now, access, send);
    ServeReducesDue(s.rows, t.rows, k, now);
    FailsIffDoomed(initial, s, now, access, send, order, k);
    DrainStep(initial.rows, s.rows, t.rows, now, order, k);
    forall d
      ensures Sendable(t, access, d) <==> Sendable(initial, access, d) && !EndedIn(initial.rows, send, order + [k], d)
    {
      SendableStep(s, k, now, access, send, d);
      EndedStep(initial.rows, send, order, k, d);
    }
    assert forall x :: x in order + [k] <==> x in order || x == k;
    assert (order + [k])[..|order|] == order;
  }

  lemma DrainStuck(initial: Store, s: Store, now: nat, access: Access, send: (RowKey, nat) -> SendResult,
                   order: seq<RowKey>, k: RowKey)
    requires Draining(initial, s, now, access, send, order) && Storable(now)
    requires NextDue(s.rows, now, k) && ServeFails(s, k, now, access, send)
    ensures StuckAt(initial, Serve(s, k, now, access, send), now, access, send, order, k)
    ensures !NobodyDoomed(initial, now, access, send)
  {
    FailsIffDoomed(initial, s, now, access, send, order, k);
    ServeEffect(s, k, now, access, send);
  }

  lemma DrainDone(initial: Store, s: Store, now: nat, access: Access, send: (RowKey, nat) -> SendResult,
                  order: seq<RowKey>)
    requires Draining(initial, s, now, access, send, order) && DueKeys(s.rows, now) == {}
    ensures Drained(initial, s, now, access, send, order) && NobodyDoomed(initial, now, access, send)
  {
    DrainComplete(initial.rows, s.rows, now, order);
    forall k
      ensures !Doomed(initial, now, access, send, k)
    {
      assert Due(initial.rows, now, k) ==> k in DueKeys(initial.rows, now) && k in Elements(order);
    }
  }
}
