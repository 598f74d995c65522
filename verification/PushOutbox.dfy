/**
 The push outbox as a protocol: one worker that claims, checks, reads the access, transmits and settles,
 interleaved at every lock and await with enqueueing, failing all waiting rows, deleting a device, changing
 subscriptions or public access, and crashing with a later reopen.

 The store refuses times beyond the signed 64-bit range.  A refused write changes nothing, and a refusal that
 the worker meets ends its drain.

 Every inserted row gets a generation of its own, with a ledger of what happened to it; deleting a row
 and enqueueing the same key again makes a new generation.
 */
module PushOutbox {
  import opened Sqlite
  import opened Wrappers
  import opened PushStore
  import opened PushWorker

  type Generation = nat

  /** `overtaken`: the row was inserted while the worker was still holding a deleted row of the same key. */
  datatype Ledger = Ledger(claims: nat, sends: nat, accepted: nat, recoveries: nat, overtaken: bool)

  /** `Cleared` and `Barred` are what the worker made of the public access it read. */
  datatype Stage = Fresh | Checked(subscription: Subscription) | Cleared | Barred | Answered(result: SendResult)

  datatype Worker =
    | Idle
    | Draining(now: nat)
    | Holding(now: nat, k: RowKey, row: Row, gen: Generation, stage: Stage)

  datatype State = State(
    store: Store, access: Access, worker: Worker, gens: map<RowKey, Generation>, ledgers: map<Generation, Ledger>)

  datatype Step =
    | EnqueueStep(k: RowKey, payloadOk: bool, at: nat, gen: Generation)
    | FailAll(category: string, at: nat)
    | DeleteStep(device: string)
    | SaveSubscription(device: string, subscription: Subscription)
    | SetAccess(access: Access)
    | Crash
    | BeginDrain(at: nat)
    | ClaimStep(k: RowKey)
    | EndDrain
    | Check
    | ReadAccess
    | WithdrawStep
    | Transmit(result: SendResult)
    | SettleStep

  const INITIAL := State(Store(map[], map[]), Access(false, None), Idle, map[], map[])

  predicate Holds(w: Worker, k: RowKey) {
    w.Holding? && w.k == k
  }

  predicate Enabled(s: State, step: Step) {
    match step
    case EnqueueStep(k, payloadOk, at, gen) => gen !in s.ledgers
    case BeginDrain(at) => s.worker.Idle? && s.access.named
    case ClaimStep(k) => s.worker.Draining? && Storable(s.worker.now) && NextDue(s.store.rows, s.worker.now, k)
                         && k in s.gens && s.gens[k] in s.ledgers
    case EndDrain => s.worker.Draining?
                     && (Storable(s.worker.now) ==> forall k | k in s.store.rows :: !Due(s.store.rows, s.worker.now, k))
    case Check => s.worker.Holding? && s.worker.stage.Fresh?
    case ReadAccess => s.worker.Holding? && s.worker.stage.Checked?
    case WithdrawStep => s.worker.Holding? && s.worker.stage.Barred?
    case Transmit(result) => s.worker.Holding? && s.worker.stage.Cleared? && s.worker.gen in s.ledgers
    case SettleStep => s.worker.Holding? && s.worker.stage.Answered?
    case _ => true
  }

  /** A crash leaves the claimed rows in `sending`; reopening gives them back and counts a recovery. */
  function RecoveredLedgers(s: State): map<Generation, Ledger> {
    map g | g in s.ledgers ::
      if exists k | k in s.store.rows :: k in s.gens && s.gens[k] == g && s.store.rows[k].status == Sending
      then s.ledgers[g].(recoveries := s.ledgers[g].recoveries + 1)
      else s.ledgers[g]
  }

  function Next(s: State, step: Step): State
    requires Enabled(s, step)
  {
    match step
    case EnqueueStep(k, payloadOk, at, gen) =>
      if k in s.store.rows || !Storable(at) then s
      else s.(store := Enqueue(s.store, k, Row(payloadOk, Pending, 0, at, None, at)),
              gens := s.gens[k := gen],
              ledgers := s.ledgers[gen := Ledger(0, 0, 0, 0, Holds(s.worker, k))])
    case FailAll(category, at) => s.(store := FailPending(s.store, category, at))
    case DeleteStep(device) =>
      s.(store := DeleteDevice(s.store, device), gens := map k | k in s.gens && k.deviceId != device :: s.gens[k])
    case SaveSubscription(device, subscription) =>
      s.(store := s.store.(subscriptions := s.store.subscriptions[device := subscription]))
    case SetAccess(access) => s.(access := access)
    case Crash => s.(store := Reopen(s.store), worker := Idle, ledgers := RecoveredLedgers(s))
    case BeginDrain(at) => s.(worker := Draining(at))
    case ClaimStep(k) =>
      var claimed := ClaimRow(s.store, k, s.worker.now);
      var gen := s.gens[k];
      s.(store := claimed,
         worker := Holding(s.worker.now, k, claimed.rows[k], gen, Fresh),
         ledgers := s.ledgers[gen := s.ledgers[gen].(claims := s.ledgers[gen].claims + 1)])
    case EndDrain => s.(worker := Idle)
    case Check =>
      var Holding(now, k, row, gen, _) := s.worker;
      if !row.payloadOk then s.(store := MarkFailed(s.store, k, "invalid_push_payload", now), worker := Draining(now))
      else
        var subscription := ActiveSubscription(s.store, k.deviceId);
        if subscription.None? then s.(store := MarkInvalid(s.store, k, now), worker := Draining(now))
        else s.(worker := s.worker.(stage := Checked(subscription.value)))
    case ReadAccess =>
      s.(worker := s.worker.(stage := if MaySend(s.access, s.worker.stage.subscription) then Cleared else Barred))
    case WithdrawStep =>
      var Holding(now, k, row, gen, _) := s.worker;
      s.(store := MarkInvalid(Invalidate(s.store, k.deviceId, now), k, now), worker := Draining(now))
    case Transmit(result) =>
      var Holding(now, k, row, gen, _) := s.worker;
      var l := s.ledgers[gen];
      s.(worker := s.worker.(stage := Answered(result)),
         ledgers := s.ledgers[gen := l.(sends := l.sends + 1,
                                        accepted := l.accepted + if result.Accepted? then 1 else 0)])
    case SettleStep =>
      var Holding(now, k, row, gen, stage) := s.worker;
      s.(store := Settle(s.store, k, row, now, stage.result),
         worker := if RetryRefused(row, now, stage.result) then Idle else Draining(now))
  }

  ghost predicate Run(s: State, steps: seq<Step>, t: State)
    decreases |steps|
  {
    if steps == [] then s == t
    else Enabled(s, steps[0]) && Run(Next(s, steps[0]), steps[1..], t)
  }

  // ---------------------------------------------------------- the invariant

  function Counted(claims: nat): nat {
    if claims < U32_MAX then claims else U32_MAX
  }

  ghost predicate LedgerOk(l: Ledger) {
    l.accepted <= l.sends <= l.claims <= 4 + l.recoveries
  }

  /** Each row has a ledger of its own. */
  ghost predicate GensOk(s: State) {
    && s.gens.Keys == s.store.rows.Keys
    && (forall k :: k in s.gens ==> s.gens[k] in s.ledgers)
    && (forall k, k' :: k in s.gens && k' in s.gens && s.gens[k] == s.gens[k'] ==> k == k')
  }

  ghost predicate RowOk(row: Row, l: Ledger) {
    && row.attempts == Counted(l.claims)
    && (row.status == Pending ==> l.claims <= 3 + l.recoveries)
    && (row.status == Sent ==> l.accepted > 0 || l.overtaken)
  }

  /** A row that a refused retry left in `sending`: it was claimed in the last four seconds that can be stored. */
  predicate Stranded(row: Row) {
    row.status == Sending && row.updatedAt + 4000 > I64_MAX
  }

  ghost predicate RowsOk(s: State)
    requires GensOk(s)
  {
    forall k :: k in s.store.rows ==>
      && RowOk(s.store.rows[k], s.ledgers[s.gens[k]])
      && (s.store.rows[k].status == Sending ==>
            Stranded(s.store.rows[k]) || (Holds(s.worker, k) && s.worker.gen == s.gens[k]))
  }

  /** What the worker holds is still counted, and its row was at most failed or replaced behind its back. */
  ghost predicate HoldOk(s: State)
    requires GensOk(s)
  {
    s.worker.Holding? ==>
      var Holding(now, k, row, gen, stage) := s.worker;
      && Storable(now) && gen in s.ledgers
      && row.attempts == Counted(s.ledgers[gen].claims)
      && (!stage.Answered? ==> s.ledgers[gen].sends < s.ledgers[gen].claims)
      && (stage == Answered(Accepted) ==> s.ledgers[gen].accepted > 0)
      && (forall k' :: k' in s.gens && s.gens[k'] == gen ==> k' == k)
      && (k in s.store.rows ==>
            if s.gens[k] == gen then
              s.store.rows[k].status in {Sending, Failed} && (s.store.rows[k].status == Sending ==> s.store.rows[k].updatedAt == now)
            else
              && s.store.rows[k].status in {Pending, Failed}
              && s.ledgers[s.gens[k]].claims == 0 && s.ledgers[s.gens[k]].overtaken)
  }

  ghost predicate Inv(s: State) {
    && (forall g :: g in s.ledgers ==> LedgerOk(s.ledgers[g]))
    && GensOk(s) && RowsOk(s) && HoldOk(s)
  }

  lemma EnqueueKeepsGens(s: State, step: Step)
    requires Inv(s) && Enabled(s, step) && step.EnqueueStep? && step.k !in s.store.rows && Storable(step.at)
    ensures GensOk(Next(s, step))
  {
  }

  lemma EnqueueKeepsRows(s: State, step: Step)
    requires Inv(s) && Enabled(s, step) && step.EnqueueStep? && step.k !in s.store.rows && Storable(step.at)
    requires GensOk(Next(s, step))
    ensures RowsOk(Next(s, step))
  {
    var t := Next(s, step);
    forall k | k in t.store.rows
      ensures RowOk(t.store.rows[k], t.ledgers[t.gens[k]])
      ensures t.store.rows[k].status == Sending ==>
                Stranded(t.store.rows[k]) || (Holds(t.worker, k) && t.worker.gen == t.gens[k])
    {
      if k != step.k {
        assert k in s.store.rows && RowOk(s.store.rows[k], s.ledgers[s.gens[k]]);
      }
    }
  }

  lemma EnqueueKeepsHold(s: State, step: Step)
    requires Inv(s) && Enabled(s, step) && step.EnqueueStep? && step.k !in s.store.rows && Storable(step.at)
    requires GensOk(Next(s, step))
    ensures HoldOk(Next(s, step))
  {
    if s.worker.Holding? {
      assert s.worker.gen in s.ledgers && s.worker.gen != step.gen;
    }
  }

  lemma EnqueueKeepsInv(s: State, step: Step)
    requires Inv(s) && Enabled(s, step) && step.EnqueueStep?
    ensures Inv(Next(s, step))
  {
    if step.k !in s.store.rows && Storable(step.at) {
      EnqueueKeepsGens(s, step);
      EnqueueKeepsRows(s, step);
      EnqueueKeepsHold(s, step);
    }
  }

  lemma FailAllKeepsInv(s: State, category: string, at: nat)
    requires Inv(s)
    ensures Inv(Next(s, FailAll(category, at)))
  {
  }

  lemma TableStepKeepsInv(s: State, step: Step)
    requires Inv(s) && Enabled(s, step)
    requires step.DeleteStep? || step.SaveSubscription? || step.SetAccess?
    ensures Inv(Next(s, step))
  {
  }

  lemma CrashKeepsInv(s: State)
    requires Inv(s)
    ensures Inv(Next(s, Crash))
  {
    var t := Next(s, Crash);
    forall k | k in t.store.rows ensures RowOk(t.store.rows[k], t.ledgers[t.gens[k]]) && t.store.rows[k].status != Sending {
      assert k in s.store.rows && RowOk(s.store.rows[k], s.ledgers[s.gens[k]]);
      assert LedgerOk(s.ledgers[s.gens[k]]);
    }
  }

  lemma ClaimKeepsInv(s: State, k: RowKey)
    requires Inv(s) && Enabled(s, ClaimStep(k))
    ensures Inv(Next(s, ClaimStep(k)))
  {
    assert RowOk(s.store.rows[k], s.ledgers[s.gens[k]]) && LedgerOk(s.ledgers[s.gens[k]]);
  }

  /** Whatever the worker writes to the row it holds, it writes once and lets go. */
  lemma ReleaseKeepsInv(s: State, t: State)
    requires Inv(s) && s.worker.Holding?
    requires t.gens == s.gens && t.ledgers == s.ledgers && !t.worker.Holding?
    requires var k := s.worker.k;
      if k in s.store.rows then
        && k in t.store.rows && t.store.rows == s.store.rows[k := t.store.rows[k]]
        && t.store.rows[k].attempts == s.store.rows[k].attempts && t.store.rows[k].status != Sending
        && (t.store.rows[k].status == Pending ==> s.worker.row.attempts <= 3)
        && (t.store.rows[k].status == Sent ==> s.worker.stage == Answered(Accepted))
      else t.store.rows == s.store.rows
    ensures Inv(t)
  {
    var k := s.worker.k;
    if k in s.store.rows {
      assert RowOk(s.store.rows[k], s.ledgers[s.gens[k]]);
      assert RowOk(t.store.rows[k], t.ledgers[t.gens[k]]);
    }
  }

  lemma CheckKeepsInv(s: State)
    requires Inv(s) && Enabled(s, Check)
    ensures Inv(Next(s, Check))
  {
    var t := Next(s, Check);
    if t.worker.Draining? {
      ReleaseKeepsInv(s, t);
    }
  }

  lemma WithdrawKeepsInv(s: State)
    requires Inv(s) && Enabled(s, WithdrawStep)
    ensures Inv(Next(s, WithdrawStep))
  {
    ReleaseKeepsInv(s, Next(s, WithdrawStep));
  }

  lemma TransmitKeepsInv(s: State, result: SendResult)
    requires Inv(s) && Enabled(s, Transmit(result))
    ensures Inv(Next(s, Transmit(result)))
  {
    var t := Next(s, Transmit(result));
    assert LedgerOk(s.ledgers[s.worker.gen]) && LedgerOk(t.ledgers[s.worker.gen]);
  }

  /** A refused retry leaves everything as it is, and its row stranded if that was still in `sending`. */
  lemma RefusalKeepsInv(s: State)
    requires Inv(s) && Enabled(s, SettleStep) && RetryRefused(s.worker.row, s.worker.now, s.worker.stage.result)
    ensures Inv(Next(s, SettleStep))
  {
    var t := Next(s, SettleStep);
    SettleEffect(s.store, s.worker.k, s.worker.row, s.worker.now, s.worker.stage.result);
    RetryIsLater(s.worker.row.attempts, s.worker.now);
    assert t == s.(worker := Idle);
    assert forall k :: k in s.store.rows && s.store.rows[k].status == Sending && Holds(s.worker, k) && s.worker.gen == s.gens[k]
             ==> s.store.rows[k].updatedAt == s.worker.now && Stranded(s.store.rows[k]);
  }

  lemma SettleKeepsInv(s: State)
    requires Inv(s) && Enabled(s, SettleStep)
    ensures Inv(Next(s, SettleStep))
  {
    if RetryRefused(s.worker.row, s.worker.now, s.worker.stage.result) {
      RefusalKeepsInv(s);
    } else {
      SettleEffect(s.store, s.worker.k, s.worker.row, s.worker.now, s.worker.stage.result);
      ReleaseKeepsInv(s, Next(s, SettleStep));
    }
  }

  lemma StepKeepsInv(s: State, step: Step)
    requires Inv(s) && Enabled(s, step)
    ensures Inv(Next(s, step))
  {
    match step
    case EnqueueStep(_, _, _, _) => EnqueueKeepsInv(s, step);
    case FailAll(category, at) => FailAllKeepsInv(s, category, at);
    case Crash => CrashKeepsInv(s);
    case ClaimStep(k) => ClaimKeepsInv(s, k);
    case Check => CheckKeepsInv(s);
    case ReadAccess =>
    case WithdrawStep => WithdrawKeepsInv(s);
    case Transmit(result) => TransmitKeepsInv(s, result);
    case SettleStep => SettleKeepsInv(s);
    case BeginDrain(at) =>
    case EndDrain =>
    case _ => TableStepKeepsInv(s, step);
  }

  lemma {:induction false} RunKeepsInv(s: State, steps: seq<Step>, t: State)
    requires Inv(s) && Run(s, steps, t)
    ensures Inv(t)
    decreases |steps|
  {
    if steps != [] {
      StepKeepsInv(s, steps[0]);
      RunKeepsInv(Next(s, steps[0]), steps[1..], t);
    }
  }

  // ------------------------------------------------------- safety over runs

  function Crashes(steps: seq<Step>): nat {
    if steps == [] then 0 else (if steps[0] == Crash then 1 else 0) + Crashes(steps[1..])
  }

  /** How often the steps transmit the row that the worker holds as generation `g`, or how often with acceptance. */
  ghost function Transmissions(s: State, steps: seq<Step>, g: Generation, acceptedOnly: bool): nat
    decreases |steps|
  {
    if steps == [] || !Enabled(s, steps[0]) then 0
    else
      (if steps[0].Transmit? && s.worker.gen == g && (acceptedOnly ==> steps[0].result == Accepted) then 1 else 0)
      + Transmissions(Next(s, steps[0]), steps[1..], g, acceptedOnly)
  }

  function LedgerOf(s: State, g: Generation): Ledger {
    if g in s.ledgers then s.ledgers[g] else Ledger(0, 0, 0, 0, false)
  }

  lemma LedgerStep(s: State, step: Step, g: Generation)
    requires Enabled(s, step)
    ensures var before, after := LedgerOf(s, g), LedgerOf(Next(s, step), g);
            var transmits := step.Transmit? && s.worker.gen == g;
      && after.sends == before.sends + (if transmits then 1 else 0)
      && after.accepted == before.accepted + (if transmits && step.result == Accepted then 1 else 0)
      && after.recoveries <= before.recoveries + (if step == Crash then 1 else 0)
  {
  }

  /** The ledgers count what the steps do. */
  lemma {:induction false} LedgersCountSteps(s: State, steps: seq<Step>, t: State, g: Generation)
    requires Run(s, steps, t)
    ensures LedgerOf(t, g).sends == LedgerOf(s, g).sends + Transmissions(s, steps, g, false)
    ensures LedgerOf(t, g).accepted == LedgerOf(s, g).accepted + Transmissions(s, steps, g, true)
    ensures LedgerOf(t, g).recoveries <= LedgerOf(s, g).recoveries + Crashes(steps)
    decreases |steps|
  {
    if steps != [] {
      LedgerStep(s, steps[0], g);
      LedgersCountSteps(Next(s, steps[0]), steps[1..], t, g);
    }
  }

  /** However the parties interleave: every row's attempts, and every generation's transmissions, stay within
      four plus the crash recoveries, and only the row in the worker's hands, or one claimed within four seconds
      of the end of storable time, is ever in `sending`. */
  lemma AttemptsAreBounded(steps: seq<Step>, t: State)
    requires Run(INITIAL, steps, t)
    ensures forall k :: k in t.store.rows ==>
              && k in t.gens && t.gens[k] in t.ledgers
              && t.store.rows[k].attempts <= 4 + t.ledgers[t.gens[k]].recoveries <= 4 + Crashes(steps)
              && (t.store.rows[k].status == Sending ==> Holds(t.worker, k) || t.store.rows[k].updatedAt + 4000 > I64_MAX)
              && (t.store.rows[k].status == Sent && !t.ledgers[t.gens[k]].overtaken ==> t.ledgers[t.gens[k]].accepted > 0)
    ensures forall g :: g in t.ledgers ==> t.ledgers[g].sends <= t.ledgers[g].claims <= 4 + t.ledgers[g].recoveries
    ensures forall g :: g in t.ledgers ==> Transmissions(INITIAL, steps, g, false) <= 4 + Crashes(steps)
  {
    RunKeepsInv(INITIAL, steps, t);
    forall g | g in t.ledgers
      ensures t.ledgers[g].recoveries <= Crashes(steps) && Transmissions(INITIAL, steps, g, false) == t.ledgers[g].sends
      ensures t.ledgers[g].sends <= t.ledgers[g].claims <= 4 + t.ledgers[g].recoveries
    {
      LedgersCountSteps(INITIAL, steps, t, g);
      assert LedgerOk(t.ledgers[g]);
    }
    forall k | k in t.store.rows ensures t.store.rows[k].attempts <= 4 + t.ledgers[t.gens[k]].recoveries {
      assert RowOk(t.store.rows[k], t.ledgers[t.gens[k]]) && LedgerOk(t.ledgers[t.gens[k]]);
    }
  }

  /** A drain that ends leaves the worker idle, and no row waiting whose time has come. */
  lemma EndLeavesNothingDue(s: State)
    requires Enabled(s, EndDrain)
    ensures Next(s, EndDrain) == State(s.store, s.access, Idle, s.gens, s.ledgers)
    ensures Storable(s.worker.now) ==> forall k :: k in s.store.rows && s.store.rows[k].status == Pending ==> s.store.rows[k].nextAttemptAt > s.worker.now
  {
  }

  /** A drain goes on: it has a row to claim, or it can end. */
  lemma DrainGoesOn(s: State) returns (step: Step)
    requires Inv(s) && s.worker.Draining?
    ensures Enabled(s, step) && (step == EndDrain || step.ClaimStep?)
  {
    if Storable(s.worker.now) && DueKeys(s.store.rows, s.worker.now) != {} {
      NextDueExists(s.store.rows, s.worker.now);
      var k :| k in s.store.rows && NextDue(s.store.rows, s.worker.now, k);
      step := ClaimStep(k);
    } else {
      assert forall k :: k in s.store.rows && Due(s.store.rows, s.worker.now, k) ==> k in DueKeys(s.store.rows, s.worker.now);
      step := EndDrain;
    }
  }

  /** Nothing the worker has still to write takes a failed row out of `failed`. */
  predicate Resigned(w: Worker)
    requires w.Holding?
  {
    match w.stage
    case Fresh => !w.row.payloadOk
    case Answered(result) =>
      result == Permanent || (result == Retryable && (w.row.attempts > 3 || RetryRefused(w.row, w.now, result)))
    case _ => false
  }

  /** Finished for good: sent, invalid, or failed with no worker that has another verdict coming. */
  predicate Final(s: State, k: RowKey) {
    && k in s.store.rows
    && match s.store.rows[k].status
       case Sent => true
       case InvalidSubscription => true
       case Failed => Holds(s.worker, k) ==> Resigned(s.worker)
       case _ => false
  }

  predicate SameGeneration(s: State, t: State, k: RowKey) {
    k in s.gens && k in t.gens && s.gens[k] == t.gens[k]
  }

  predicate WorkerStep(step: Step) {
    step.Check? || step.ReadAccess? || step.WithdrawStep? || step.Transmit? || step.SettleStep?
  }

  /** The worker writes to no row but the one it holds. */
  lemma WorkerWritesHeldRow(s: State, step: Step, k: RowKey)
    requires Enabled(s, step) && s.worker.Holding? && Storable(s.worker.now)
    requires WorkerStep(step)
    requires k in s.store.rows && !Holds(s.worker, k)
    ensures k in Next(s, step).store.rows && Next(s, step).store.rows[k] == s.store.rows[k]
    ensures Next(s, step).gens == s.gens && !Holds(Next(s, step).worker, k)
  {
    if step.SettleStep? {
      SettleEffect(s.store, s.worker.k, s.worker.row, s.worker.now, s.worker.stage.result);
    }
  }

  /** The steps with which the worker takes the row it holds out of `failed`. */
  predicate Overwrites(s: State, step: Step)
    requires s.worker.Holding? && Enabled(s, step)
  {
    match step
    case Check => s.worker.row.payloadOk && ActiveSubscription(s.store, s.worker.k.deviceId).None?
    case WithdrawStep => true
    case SettleStep => !Resigned(s.worker)
    case _ => false
  }

  predicate LeavesFailed(s: State, t: State, k: RowKey) {
    SameGeneration(s, t, k) && k in t.store.rows && t.store.rows[k].status != Failed
  }

  /** What a held failed row becomes, row and generation. */
  ghost predicate HeldFailedOutcome(s: State, step: Step, k: RowKey)
    requires Enabled(s, step) && s.worker.Holding?
  {
    var t := Next(s, step);
    && SameGeneration(s, t, k) && k in t.store.rows
    && (t.store.rows[k].status != Failed <==> Overwrites(s, step))
  }

  lemma HeldFailedSettle(s: State, k: RowKey)
    requires Inv(s) && Enabled(s, SettleStep) && k in s.store.rows && s.store.rows[k].status == Failed && Holds(s.worker, k)
    ensures HeldFailedOutcome(s, SettleStep, k)
  {
    SettleOverFailed(s.store, k, s.worker.row, s.worker.now, s.worker.stage.result);
  }

  lemma HeldFailedStep(s: State, step: Step, k: RowKey)
    requires Inv(s) && Enabled(s, step) && k in s.store.rows && s.store.rows[k].status == Failed && Holds(s.worker, k)
    requires step.Check? || step.WithdrawStep? || step.SettleStep?
    ensures HeldFailedOutcome(s, step, k)
  {
    if step.SettleStep? {
      HeldFailedSettle(s, k);
    }
  }

  lemma OthersKeepFailed(s: State, step: Step, k: RowKey)
    requires Inv(s) && Enabled(s, step) && k in s.store.rows && s.store.rows[k].status == Failed
    requires !WorkerStep(step)
    ensures !LeavesFailed(s, Next(s, step), k)
  {
  }

  /** A failed row leaves `failed` in a step exactly when the worker, holding its key, overwrites it. */
  lemma FailedIsLeftExactly(s: State, step: Step, k: RowKey)
    requires Inv(s) && Enabled(s, step) && k in s.store.rows && s.store.rows[k].status == Failed
    ensures LeavesFailed(s, Next(s, step), k) <==> Holds(s.worker, k) && Overwrites(s, step)
  {
    if !WorkerStep(step) {
      OthersKeepFailed(s, step, k);
    } else if !Holds(s.worker, k) {
      WorkerWritesHeldRow(s, step, k);
    } else if step.Check? || step.WithdrawStep? || step.SettleStep? {
      HeldFailedStep(s, step, k);
    }
  }

  lemma FinalStaysInStep(s: State, step: Step, k: RowKey)
    requires Inv(s) && Enabled(s, step) && Final(s, k)
    ensures var t := Next(s, step); k in t.gens ==>
              SameGeneration(s, t, k) && Final(t, k) && t.store.rows[k].status == s.store.rows[k].status
  {
    if WorkerStep(step) && !Holds(s.worker, k) {
      WorkerWritesHeldRow(s, step, k);
    } else if step.Check? || step.WithdrawStep? || step.SettleStep? {
      HeldFailedStep(s, step, k);
    }
  }

  predicate HasGeneration(s: State, k: RowKey, g: Generation) {
    k in s.gens && s.gens[k] == g
  }

  lemma StepKeepsGenerationGone(s: State, step: Step, k: RowKey, g: Generation)
    requires Enabled(s, step) && g in s.ledgers && !HasGeneration(s, k, g)
    ensures g in Next(s, step).ledgers && !HasGeneration(Next(s, step), k, g)
  {
    if step.Crash? {
      assert Next(s, step).ledgers.Keys == s.ledgers.Keys;
    }
  }

  /** A generation that has lost its row never gets one again. */
  lemma {:induction false} GenerationsDoNotReturn(s: State, steps: seq<Step>, t: State, k: RowKey, g: Generation)
    requires Run(s, steps, t) && g in s.ledgers && !HasGeneration(s, k, g)
    ensures !HasGeneration(t, k, g)
    decreases |steps|
  {
    if steps != [] {
      StepKeepsGenerationGone(s, steps[0], k, g);
      GenerationsDoNotReturn(Next(s, steps[0]), steps[1..], t, k, g);
    }
  }

  /** Over any run, a finished row keeps its status for as long as it is not deleted. */
  lemma {:induction false} FinalIsAbsorbing(s: State, steps: seq<Step>, t: State, k: RowKey)
    requires Inv(s) && Run(s, steps, t) && Final(s, k) && SameGeneration(s, t, k)
    ensures Final(t, k) && t.store.rows[k].status == s.store.rows[k].status
    decreases |steps|
  {
    if steps != [] {
      var u := Next(s, steps[0]);
      StepKeepsInv(s, steps[0]);
      FinalStaysInStep(s, steps[0], k);
      if k in u.gens {
        FinalIsAbsorbing(u, steps[1..], t, k);
      } else {
        GenerationsDoNotReturn(u, steps[1..], t, k, s.gens[k]);
      }
    }
  }

  // --------------------------------------- what the unchecked update allows

  ghost predicate StaysFailed(s: State, k: RowKey) {
    forall steps, t :: Run(s, steps, t) ==> !LeavesFailed(s, t, k)
  }

  function StepsLeft(stage: Stage): nat {
    match stage
    case Fresh => 4
    case Checked(_) => 3
    case Cleared => 2
    case Barred => 1
    case Answered(_) => 1
  }

  /** Unless the worker has resigned, its own next steps can take the row it holds out of `failed`. */
  lemma {:induction false} HeldFailedCanLeave(s: State, k: RowKey) returns (steps: seq<Step>, t: State)
    requires Inv(s) && k in s.store.rows && s.store.rows[k].status == Failed
    requires Holds(s.worker, k) && !Resigned(s.worker)
    ensures Run(s, steps, t) && LeavesFailed(s, t, k)
    decreases StepsLeft(s.worker.stage)
  {
    var step := match s.worker.stage
      case Fresh => Check
      case Checked(_) => ReadAccess
      case Cleared => Transmit(Accepted)
      case Barred => WithdrawStep
      case Answered(_) => SettleStep;
    var u := Next(s, step);
    FailedIsLeftExactly(s, step, k);
    if LeavesFailed(s, u, k) {
      steps, t := [step] + [], u;
      RunCons(s, step, [], u);
    } else {
      StepKeepsInv(s, step);
      steps, t := HeldFailedCanLeave(u, k);
      RunCons(s, step, steps, t);
      steps := [step] + steps;
    }
  }

  /** A failed row is failed for good exactly when no worker holds its key, or one that has resigned. */
  lemma FailedForGoodExactly(s: State, k: RowKey)
    requires Inv(s) && k in s.store.rows && s.store.rows[k].status == Failed
    ensures StaysFailed(s, k) <==> (Holds(s.worker, k) ==> Resigned(s.worker))
  {
    if Final(s, k) {
      forall steps, t | Run(s, steps, t)
        ensures !LeavesFailed(s, t, k)
      {
        if SameGeneration(s, t, k) {
          FinalIsAbsorbing(s, steps, t, k);
        }
      }
    } else {
      var steps, t := HeldFailedCanLeave(s, k);
    }
  }

  lemma RunCons(s: State, step: Step, rest: seq<Step>, t: State)
    requires Enabled(s, step) && Run(Next(s, step), rest, t)
    ensures Run(s, [step] + rest, t)
  {
    assert ([step] + rest)[1..] == rest;
  }

  /** The worker has sent the only row, the transport has accepted it, and that is still to be recorded. */
  ghost function InTransit(k: RowKey): State {
    var row := Row(true, Sending, 1, 1, None, 1);
    State(Store(map[k := row], map[k.deviceId := Subscription("o", None, None)]), Access(true, Some("o")),
          Holding(1, k, row, 0, Answered(Accepted)), map[k := 0], map[0 := Ledger(1, 1, 1, 0, false)])
  }

  /** The same row enqueued and due, with the worker about to claim. */
  ghost function ReadyToClaim(k: RowKey): State {
    State(Store(map[k := Row(true, Pending, 0, 1, None, 1)], map[k.deviceId := Subscription("o", None, None)]),
          Access(true, Some("o")), Draining(1), map[k := 0], map[0 := Ledger(0, 0, 0, 0, false)])
  }

  lemma ReadyIsReachable(k: RowKey, rest: seq<Step>, t: State) returns (steps: seq<Step>)
    requires Run(ReadyToClaim(k), rest, t)
    ensures Run(INITIAL, steps, t)
  {
    var sub := Subscription("o", None, None);
    var waiting := ReadyToClaim(k).(worker := Idle);
    var offline := waiting.(access := Access(false, None));
    var unsubscribed := offline.(store := offline.store.(subscriptions := map[]));
    steps := [BeginDrain(1)] + rest;
    RunCons(waiting, BeginDrain(1), rest, t);
    RunCons(offline, SetAccess(Access(true, Some("o"))), steps, t);
    steps := [SetAccess(Access(true, Some("o")))] + steps;
    assert Next(unsubscribed, SaveSubscription(k.deviceId, sub)) == offline;
    RunCons(unsubscribed, SaveSubscription(k.deviceId, sub), steps, t);
    steps := [SaveSubscription(k.deviceId, sub)] + steps;
    assert Next(INITIAL, EnqueueStep(k, true, 1, 0)) == unsubscribed;
    RunCons(INITIAL, EnqueueStep(k, true, 1, 0), steps, t);
    steps := [EnqueueStep(k, true, 1, 0)] + steps;
  }

  /** The one row claimed and checked. */
  ghost function CheckedRow(k: RowKey): State {
    InTransit(k).(worker := InTransit(k).worker.(stage := Checked(Subscription("o", None, None))),
                  ledgers := map[0 := Ledger(1, 0, 0, 0, false)])
  }

  lemma SendReachesInTransit(k: RowKey)
    ensures Run(CheckedRow(k), [ReadAccess] + ([Transmit(Accepted)] + []), InTransit(k))
  {
    var cleared := Next(CheckedRow(k), ReadAccess);
    assert Next(cleared, Transmit(Accepted)) == InTransit(k);
    RunCons(cleared, Transmit(Accepted), [], InTransit(k));
    RunCons(CheckedRow(k), ReadAccess, [Transmit(Accepted)] + [], InTransit(k));
  }

  lemma InTransitIsReachable(k: RowKey) returns (steps: seq<Step>)
    ensures Run(INITIAL, steps, InTransit(k))
  {
    var ready := ReadyToClaim(k);
    var claimed := Next(ready, ClaimStep(k));
    assert Next(claimed, Check) == CheckedRow(k);
    SendReachesInTransit(k);
    var rest := [ReadAccess] + ([Transmit(Accepted)] + []);
    RunCons(claimed, Check, rest, InTransit(k));
    RunCons(ready, ClaimStep(k), [Check] + rest, InTransit(k));
    steps := ReadyIsReachable(k, [ClaimStep(k)] + ([Check] + rest), InTransit(k));
  }

  /** `failed` does not end a row that was already being sent: the worker's record overwrites it. */
  lemma FailedCanBecomeSent(k: RowKey)
    ensures var failed := Next(InTransit(k), FailAll("public_access_changed", 2));
      && failed.store.rows[k].status == Failed
      && Enabled(failed, SettleStep) && Next(failed, SettleStep).store.rows[k].status == Sent
  {
  }

  /** Whenever the worker carries an accepted row that has been deleted, a row enqueued under its key, of any
      new generation, is marked sent without having been sent. */
  lemma OvertakenRowIsNotSent(s: State, payloadOk: bool, at: nat, g: Generation)
    requires Inv(s) && s.worker.Holding? && s.worker.stage == Answered(Accepted)
    requires s.worker.k !in s.store.rows && g !in s.ledgers && Storable(at)
    ensures var k, again := s.worker.k, EnqueueStep(s.worker.k, payloadOk, at, g);
      && Enabled(s, again)
      && var t := Next(Next(s, again), SettleStep);
         && k in t.store.rows && t.gens[k] == g
         && t.store.rows[k].status == Sent && t.ledgers[g] == Ledger(0, 0, 0, 0, true)
  {
  }

  /** The row is recorded as sent, and the transport never accepted it. */
  predicate SentUnaccepted(s: State, k: RowKey) {
    && k in s.store.rows && s.store.rows[k].status == Sent
    && k in s.gens && s.gens[k] in s.ledgers && s.ledgers[s.gens[k]].accepted == 0
  }

  /** The worker records the acceptance of a deleted row on the row that has taken its key. */
  predicate Misattributes(s: State, step: Step, k: RowKey) {
    && step.SettleStep? && Holds(s.worker, k) && s.worker.stage == Answered(Accepted)
    && k in s.gens && s.gens[k] != s.worker.gen
  }

  lemma MisattributedRow(s: State, k: RowKey)
    requires Inv(s) && Misattributes(s, SettleStep, k)
    ensures Enabled(s, SettleStep) && SentUnaccepted(Next(s, SettleStep), k) && Next(s, SettleStep).gens == s.gens
  {
    assert s.ledgers[s.gens[k]].claims == 0 && LedgerOk(s.ledgers[s.gens[k]]);
  }

  lemma SettledRow(s: State, k: RowKey)
    requires Inv(s) && Enabled(s, SettleStep) && k in s.store.rows && !Misattributes(s, SettleStep, k)
    ensures SentUnaccepted(Next(s, SettleStep), k) <==> SentUnaccepted(s, k)
  {
    SettleEffect(s.store, s.worker.k, s.worker.row, s.worker.now, s.worker.stage.result);
    assert RowOk(s.store.rows[k], s.ledgers[s.gens[k]]);
  }

  predicate IsSent(s: State, k: RowKey) {
    k in s.store.rows && s.store.rows[k].status == Sent
  }

  /** The step marks row `k` as sent no more and no less than it was. */
  predicate RecordsNoSend(s: State, step: Step, k: RowKey)
    requires Enabled(s, step)
  {
    IsSent(Next(s, step), k) <==> IsSent(s, k) && k in Next(s, step).store.rows
  }

  lemma HeldRowIsNotSent(s: State, step: Step)
    requires Inv(s) && Enabled(s, step) && WorkerStep(step) && !step.SettleStep?
    ensures RecordsNoSend(s, step, s.worker.k)
  {
  }

  lemma TableStepRecordsNoSend(s: State, step: Step, k: RowKey)
    requires Inv(s) && Enabled(s, step)
    requires step.EnqueueStep? || step.FailAll? || step.DeleteStep? || step.Crash?
    ensures RecordsNoSend(s, step, k)
  {
  }

  lemma ClaimRecordsNoSend(s: State, step: Step, k: RowKey)
    requires Inv(s) && Enabled(s, step) && step.ClaimStep?
    ensures RecordsNoSend(s, step, k)
  {
  }

  lemma WorkerStepRecordsNoSend(s: State, step: Step, k: RowKey)
    requires Inv(s) && Enabled(s, step) && WorkerStep(step) && !step.SettleStep?
    ensures RecordsNoSend(s, step, k)
  {
    if Holds(s.worker, k) {
      HeldRowIsNotSent(s, step);
    } else if k in s.store.rows {
      WorkerWritesHeldRow(s, step, k);
    }
  }

  lemma OtherStepsRecordNoSend(s: State, step: Step, k: RowKey)
    requires Inv(s) && Enabled(s, step) && !step.SettleStep?
    ensures RecordsNoSend(s, step, k)
  {
    if WorkerStep(step) {
      WorkerStepRecordsNoSend(s, step, k);
    } else if step.EnqueueStep? || step.FailAll? || step.DeleteStep? || step.Crash? {
      TableStepRecordsNoSend(s, step, k);
    } else if step.ClaimStep? {
      ClaimRecordsNoSend(s, step, k);
    } else {
      assert Next(s, step).store.rows == s.store.rows;
    }
  }

  lemma StepKeepsGeneration(s: State, step: Step, k: RowKey)
    requires Inv(s) && Enabled(s, step) && k in s.gens
    ensures s.gens[k] in Next(s, step).ledgers
    ensures k in Next(s, step).gens ==> Next(s, step).gens[k] == s.gens[k]
  {
    if step.Crash? {
      assert Next(s, step).ledgers.Keys == s.ledgers.Keys;
    }
  }

  lemma AcceptedIsKept(s: State, step: Step, g: Generation)
    requires Enabled(s, step) && !step.Transmit? && g in s.ledgers && g in Next(s, step).ledgers
    ensures Next(s, step).ledgers[g].accepted == s.ledgers[g].accepted
  {
  }

  /** What is transmitted is not a row that is sent already. */
  lemma TransmitKeepsSentLedger(s: State, step: Step, k: RowKey)
    requires Inv(s) && Enabled(s, step) && step.Transmit? && IsSent(s, k)
    ensures k in s.gens && s.gens[k] != s.worker.gen
    ensures Next(s, step).ledgers[s.gens[k]] == s.ledgers[s.gens[k]]
  {
  }

  lemma SentRowKeepsLedger(s: State, step: Step, k: RowKey)
    requires Inv(s) && Enabled(s, step) && !step.SettleStep?
    requires IsSent(s, k) && k in Next(s, step).store.rows
    ensures SameGeneration(s, Next(s, step), k) && s.gens[k] in s.ledgers && s.gens[k] in Next(s, step).ledgers
    ensures Next(s, step).ledgers[s.gens[k]].accepted == s.ledgers[s.gens[k]].accepted
  {
    StepKeepsGeneration(s, step, k);
    if step.Transmit? {
      TransmitKeepsSentLedger(s, step, k);
    } else {
      AcceptedIsKept(s, step, s.gens[k]);
    }
  }

  /** A row becomes sent without an acceptance of its own in no other way, and stays so until it is deleted. */
  lemma SentUnacceptedExactly(s: State, step: Step, k: RowKey)
    requires Inv(s) && Enabled(s, step)
    ensures SentUnaccepted(Next(s, step), k)
       <==> Misattributes(s, step, k) || (SentUnaccepted(s, k) && k in Next(s, step).store.rows)
  {
    if Misattributes(s, step, k) {
      MisattributedRow(s, k);
    } else if step.SettleStep? {
      if k in s.store.rows {
        SettledRow(s, k);
      } else {
        SettleEffect(s.store, s.worker.k, s.worker.row, s.worker.now, s.worker.stage.result);
      }
    } else {
      OtherStepsRecordNoSend(s, step, k);
      if IsSent(s, k) && k in Next(s, step).store.rows {
        SentRowKeepsLedger(s, step, k);
      }
    }
  }

  /** At some point of the run the worker did so, and the row lived on to the end of it. */
  ghost predicate Misattributed(s: State, steps: seq<Step>, t: State, k: RowKey)
    requires Run(s, steps, t)
    decreases |steps|
  {
    steps != []
    && ((Misattributes(s, steps[0], k) && SameGeneration(s, t, k))
        || Misattributed(Next(s, steps[0]), steps[1..], t, k))
  }

  lemma GenerationLives(s: State, step: Step, rest: seq<Step>, t: State, k: RowKey)
    requires Inv(s) && Enabled(s, step) && Run(Next(s, step), rest, t)
    ensures SameGeneration(s, t, k) ==> SameGeneration(s, Next(s, step), k)
  {
    if k in s.gens {
      StepKeepsGeneration(s, step, k);
      if k !in Next(s, step).gens {
        GenerationsDoNotReturn(Next(s, step), rest, t, k, s.gens[k]);
      }
    }
  }

  /** What a step makes of row `k` decides the end of the run only while the generation lives. */
  lemma SentUnacceptedFromHere(s: State, step: Step, rest: seq<Step>, t: State, k: RowKey)
    requires Inv(s) && Enabled(s, step) && Run(Next(s, step), rest, t)
    ensures SentUnaccepted(Next(s, step), k) && SameGeneration(Next(s, step), t, k)
       <==> (Misattributes(s, step, k) || SentUnaccepted(s, k)) && SameGeneration(s, t, k)
  {
    SentUnacceptedExactly(s, step, k);
    GenerationLives(s, step, rest, t, k);
    if k in s.gens {
      StepKeepsGeneration(s, step, k);
    }
    assert Next(s, step).gens.Keys == Next(s, step).store.rows.Keys by {
      StepKeepsInv(s, step);
    }
  }

  /** Over a run: a row is sent without an acceptance exactly when it got that of a deleted row of its key. */
  lemma {:induction false} SentUnacceptedOverRun(s: State, steps: seq<Step>, t: State, k: RowKey)
    requires Inv(s) && Run(s, steps, t)
    ensures SentUnaccepted(t, k) <==> Misattributed(s, steps, t, k) || (SentUnaccepted(s, k) && SameGeneration(s, t, k))
    decreases |steps|
  {
    if steps != [] {
      StepKeepsInv(s, steps[0]);
      SentUnacceptedOverRun(Next(s, steps[0]), steps[1..], t, k);
      SentUnacceptedFromHere(s, steps[0], steps[1..], t, k);
    }
  }

  /** So from the start, a sent row was accepted by the transport unless it was misattributed. */
  lemma SentMeansAccepted(steps: seq<Step>, t: State, k: RowKey)
    requires Run(INITIAL, steps, t) && k in t.store.rows && t.store.rows[k].status == Sent
    ensures k in t.gens && t.gens[k] in t.ledgers
    ensures Transmissions(INITIAL, steps, t.gens[k], true) > 0 <==> !Misattributed(INITIAL, steps, t, k)
  {
    RunKeepsInv(INITIAL, steps, t);
    LedgersCountSteps(INITIAL, steps, t, t.gens[k]);
    SentUnacceptedOverRun(INITIAL, steps, t, k);
  }

  /** Such a state is reached from an accepted row in transit by deleting its device. */
  lemma DeletedInTransit(k: RowKey)
    ensures var s := Next(InTransit(k), DeleteStep(k.deviceId));
            s.worker.Holding? && s.worker.k == k && s.worker.stage == Answered(Accepted) && k !in s.store.rows
  {
  }

  // ----------------------------------------------- the sequential worker

  predicate EndsTurn(s: State, t: State, fails: bool) {
    s.worker.Holding? && t.gens == s.gens && t.access == s.access && t.worker == if fails then Idle else Draining(s.worker.now)
  }

  /** From the check on: read the access, then transmit and settle, or withdraw. */
  lemma CheckedTurn(s: State, result: SendResult) returns (steps: seq<Step>, t: State)
    requires Enabled(s, ReadAccess) && s.worker.gen in s.ledgers
    ensures Run(s, steps, t)
    ensures var Holding(now, k, row, _, stage) := s.worker;
            var clear := MaySend(s.access, stage.subscription);
            && EndsTurn(s, t, clear && RetryRefused(row, now, result))
            && t.store == if clear then Settle(s.store, k, row, now, result)
                          else MarkInvalid(Invalidate(s.store, k.deviceId, now), k, now)
  {
    var u := Next(s, ReadAccess);
    if u.worker.stage.Barred? {
      t := Next(u, WithdrawStep);
      RunCons(u, WithdrawStep, [], t);
      steps := [WithdrawStep] + [];
    } else {
      var v := Next(u, Transmit(result));
      t := Next(v, SettleStep);
      RunCons(v, SettleStep, [], t);
      RunCons(u, Transmit(result), [SettleStep] + [], t);
      steps := [Transmit(result)] + ([SettleStep] + []);
    }
    RunCons(s, ReadAccess, steps, t);
    steps := [ReadAccess] + steps;
  }

  lemma ClaimedTurn(s: State, result: SendResult) returns (steps: seq<Step>, t: State)
    requires Enabled(s, Check) && s.worker.gen in s.ledgers
    ensures Run(s, steps, t)
    ensures var Holding(now, k, row, _, _) := s.worker;
            && EndsTurn(s, t, ProcessFails(s.store, k, row, now, s.access, result))
            && t.store == Process(s.store, k, row, now, s.access, result)
  {
    var u := Next(s, Check);
    if u.worker.Holding? {
      steps, t := CheckedTurn(u, result);
    } else {
      steps, t := [], u;
    }
    RunCons(s, Check, steps, t);
    steps := [Check] + steps;
  }

  /** Without interference, claim, check, access, transmit and settle are the sequential worker's turn, which
      ends the drain exactly when it fails. */
  lemma TurnIsARun(s: State, k: RowKey, result: SendResult) returns (steps: seq<Step>, t: State)
    requires Inv(s) && Enabled(s, ClaimStep(k))
    ensures Run(s, steps, t) && t.gens == s.gens && t.access == s.access
    ensures t.store == Serve(s.store, k, s.worker.now, s.access, (_, _) => result)
    ensures t.worker == if ServeFails(s.store, k, s.worker.now, s.access, (_, _) => result) then Idle else s.worker
  {
    var u := Next(s, ClaimStep(k));
    steps, t := ClaimedTurn(u, result);
    RunCons(s, ClaimStep(k), steps, t);
    steps := [ClaimStep(k)] + steps;
  }
}
