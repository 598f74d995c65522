/**
 Alert detection: the per-thread state machine that turns session snapshots into alerts, its two
 writers (the live event path and the poll), and the identity of the alerts it emits.

 Texts stand for their UTF-8 bytes, one character per byte.  An alert id is the SHA-256 of an encoded
 list of parts; the hash is taken to be injective, so an id is represented by the encoding itself.
 */
module AlertDetector {
  import opened Sequences
  import opened Text
  import opened Wrappers

  datatype SessionStatus = Idle | Running | WaitingForInput | WaitingForApproval | InError
  datatype AlertKind = Completed | ApprovalRequired | InputRequired | ErrorAlert

  datatype Snapshot = Snapshot(threadId: string, title: string, updatedAt: nat, status: SessionStatus)

  datatype AlertState = AlertState(
    threadId: string,
    status: SessionStatus,
    updatedAt: nat,
    stateCycle: nat,
    knownApprovalIds: seq<string>,
    fallbackApprovalCycle: Option<nat>)

  datatype Alert = Alert(eventId: string, kind: AlertKind, threadId: string, threadTitle: string, occurredAt: nat)
  datatype Detection = Detection(nextState: AlertState, events: seq<Alert>, ignoredAsStale: bool)

  const KNOWN_LIMIT: nat := 256
  const U64_LIMIT: nat := 0x1_0000_0000_0000_0000

  // ------------------------------------------------------------- alert ids

  function Pow256(width: nat): nat {
    if width == 0 then 1 else 256 * Pow256(width - 1)
  }

  /** Big-endian bytes, as `u64::to_be_bytes` for width 8. */
  function BigEndian(n: nat, width: nat): (r: string)
    ensures |r| == width
  {
    if width == 0 then [] else BigEndian(n / 256, width - 1) + [(n % 256) as char]
  }

  /** What the bytes stand for, the most significant first. */
  function Numeral(bytes: string): nat {
    if bytes == [] then 0 else 256 * Numeral(bytes[..|bytes| - 1]) + bytes[|bytes| - 1] as nat
  }

  lemma {:induction false} BigEndianNumeral(n: nat, width: nat)
    requires n < Pow256(width)
    ensures Numeral(BigEndian(n, width)) == n
  {
    if width > 0 {
      var bytes := BigEndian(n, width);
      BigEndianNumeral(n / 256, width - 1);
      assert bytes[..width - 1] == BigEndian(n / 256, width - 1);
    }
  }

  function Encode(parts: seq<string>): string {
    if parts == [] then [] else BigEndian(|parts[0]|, 8) + parts[0] + Encode(parts[1..])
  }

  method StableEventId(parts: seq<string>) returns (input: string)
    ensures input == Encode(parts)
  {
    input := [];
    for i := 0 to |parts|
      invariant input + Encode(parts[i..]) == Encode(parts)
    {
      EncodeStep(input, parts, i);
      input := input + BigEndian(|parts[i]|, 8);
      input := input + parts[i];
    }
    assert parts[|parts|..] == [];
  }

  lemma EncodeStep(input: string, parts: seq<string>, i: nat)
    requires i < |parts|
    ensures input + BigEndian(|parts[i]|, 8) + parts[i] + Encode(parts[i + 1..]) == input + Encode(parts[i..])
  {
    var rest := parts[i..];
    var prefix, tail := BigEndian(|parts[i]|, 8), Encode(parts[i + 1..]);
    assert rest[1..] == parts[i + 1..] && Encode(rest) == prefix + parts[i] + tail;
    AppendAssociates(input, prefix, parts[i]);
    AppendAssociates(input, prefix + parts[i], tail);
  }

  lemma {:induction false} BigEndianInjective(m: nat, n: nat, width: nat)
    requires m < Pow256(width) && n < Pow256(width)
    requires BigEndian(m, width) == BigEndian(n, width)
    ensures m == n
  {
    if width > 0 {
      var s, t := BigEndian(m, width), BigEndian(n, width);
      assert s[width - 1] == (m % 256) as char && t[width - 1] == (n % 256) as char;
      assert s[..width - 1] == BigEndian(m / 256, width - 1) && t[..width - 1] == BigEndian(n / 256, width - 1);
      BigEndianInjective(m / 256, n / 256, width - 1);
    }
  }

  lemma Pow256Of8()
    ensures Pow256(8) == U64_LIMIT
  {
    assert Pow256(4) == 256 * (256 * (256 * 256));
    assert Pow256(8) == 256 * (256 * (256 * (256 * Pow256(4))));
  }

  ghost predicate Sized(parts: seq<string>) {
    forall p :: p in parts ==> |p| < U64_LIMIT
  }

  /** Unique decodability: the encoding determines the parts. */
  lemma {:induction false} EncodeInjective(a: seq<string>, b: seq<string>)
    requires Sized(a) && Sized(b) && Encode(a) == Encode(b)
    ensures a == b
  {
    if a != [] && b != [] {
      var s, t := Encode(a), Encode(b);
      assert s[..8] == BigEndian(|a[0]|, 8) && t[..8] == BigEndian(|b[0]|, 8);
      Pow256Of8();
      BigEndianInjective(|a[0]|, |b[0]|, 8);
      assert a[0] == s[8..8 + |a[0]|] == t[8..8 + |b[0]|] == b[0];
      assert Encode(a[1..]) == s[8 + |a[0]|..] == t[8 + |b[0]|..] == Encode(b[1..]);
      EncodeInjective(a[1..], b[1..]);
      assert a == [a[0]] + a[1..] && b == [b[0]] + b[1..];
    }
  }

  function KindName(kind: AlertKind): string {
    match kind
    case Completed => "completed"
    case ApprovalRequired => "approval_required"
    case InputRequired => "input_required"
    case ErrorAlert => "error"
  }

  function CycleId(kind: AlertKind, threadId: string, cycle: nat): string {
    Encode([KindName(kind), threadId, Decimal(cycle)])
  }

  function CompletedId(threadId: string, previousAt: nat, at: nat): string {
    Encode(["completed", threadId, Decimal(previousAt), Decimal(at)])
  }

  function NativeId(threadId: string, approvalId: string): string {
    Encode(["approval_required", threadId, approvalId])
  }

  /** The parts of the ids, with the names of the kinds written out. */
  lemma IdsSpelledOut(threadId: string, cycle: nat, previousAt: nat, at: nat, approvalId: string)
    ensures CycleId(InputRequired, threadId, cycle) == Encode(["input_required", threadId, Decimal(cycle)])
    ensures CycleId(ErrorAlert, threadId, cycle) == Encode(["error", threadId, Decimal(cycle)])
    ensures CycleId(ApprovalRequired, threadId, cycle) == Encode(["approval_required", threadId, Decimal(cycle)])
    ensures NativeId(threadId, approvalId) == Encode(["approval_required", threadId, approvalId])
    ensures CompletedId(threadId, previousAt, at) == Encode(["completed", threadId, Decimal(previousAt), Decimal(at)])
  {
  }

  lemma {:induction false} DecimalSized(n: nat)
    requires n < U64_LIMIT
    ensures |Decimal(n)| <= n || n == 0
    ensures |Decimal(n)| < U64_LIMIT
  {
    if n >= 10 {
      DecimalSized(n / 10);
    }
  }

  lemma CycleIdsDiffer(kind: AlertKind, kind': AlertKind, threadId: string, cycle: nat, cycle': nat)
    requires |threadId| < U64_LIMIT && cycle < U64_LIMIT && cycle' < U64_LIMIT
    requires CycleId(kind, threadId, cycle) == CycleId(kind', threadId, cycle')
    ensures cycle == cycle'
  {
    DecimalSized(cycle);
    DecimalSized(cycle');
    var a, b := [KindName(kind), threadId, Decimal(cycle)], [KindName(kind'), threadId, Decimal(cycle')];
    EncodeInjective(a, b);
    assert a[2] == b[2];
    DecimalInjective(cycle, cycle');
  }

  lemma CompletedIdsDiffer(threadId: string, p: nat, q: nat, p': nat, q': nat)
    requires |threadId| < U64_LIMIT && p < U64_LIMIT && q < U64_LIMIT && p' < U64_LIMIT && q' < U64_LIMIT
    requires CompletedId(threadId, p, q) == CompletedId(threadId, p', q')
    ensures p == p' && q == q'
  {
    DecimalSized(p);
    DecimalSized(q);
    DecimalSized(p');
    DecimalSized(q');
    var a, b := ["completed", threadId, Decimal(p), Decimal(q)], ["completed", threadId, Decimal(p'), Decimal(q')];
    EncodeInjective(a, b);
    assert a[2] == b[2] && a[3] == b[3];
    DecimalInjective(p, p');
    DecimalInjective(q, q');
  }

  // ------------------------------------------------------------ the detector

  function AlertFor(snapshot: Snapshot, kind: AlertKind, eventId: string): Alert {
    Alert(eventId, kind, snapshot.threadId, snapshot.title, snapshot.updatedAt)
  }

  function CycleAlert(snapshot: Snapshot, kind: AlertKind, cycle: nat): Alert {
    AlertFor(snapshot, kind, CycleId(kind, snapshot.threadId, cycle))
  }

  function NewIds(known: seq<string>, ids: seq<string>): seq<string> {
    if ids == [] then [] else (if ids[0] in known then [] else [ids[0]]) + NewIds(known, ids[1..])
  }

  function Remember(known: seq<string>, ids: seq<string>): seq<string>
    decreases |ids|
  {
    if ids == [] then known else Remember(if ids[0] in known then known else known + [ids[0]], ids[1..])
  }

  function NativeAlerts(snapshot: Snapshot, ids: seq<string>): seq<Alert> {
    if ids == [] then []
    else [AlertFor(snapshot, ApprovalRequired, NativeId(snapshot.threadId, ids[0]))] + NativeAlerts(snapshot, ids[1..])
  }

  predicate IsStale(previous: Option<AlertState>, snapshot: Snapshot) {
    previous.Some? && snapshot.updatedAt < previous.value.updatedAt
  }

  function NextCycle(previous: Option<AlertState>, snapshot: Snapshot): nat {
    if previous.None? then 0
    else previous.value.stateCycle + if previous.value.status != snapshot.status then 1 else 0
  }

  function Known(previous: Option<AlertState>): seq<string> {
    if previous.None? then [] else previous.value.knownApprovalIds
  }

  /** The first native ids after an unnamed approval alert are taken to be that same approval. */
  predicate AbsorbsNativeIds(previous: AlertState, newIds: seq<string>) {
    && previous.status == WaitingForApproval
    && previous.fallbackApprovalCycle == Some(previous.stateCycle)
    && previous.knownApprovalIds == []
    && newIds != []
  }

  predicate FallsBack(previous: AlertState, snapshot: Snapshot, newIds: seq<string>) {
    previous.status != WaitingForApproval && snapshot.status == WaitingForApproval && newIds == []
  }

  function CompletedEvents(previous: AlertState, snapshot: Snapshot): seq<Alert> {
    if previous.status == Running && snapshot.status == Idle
    then [AlertFor(snapshot, Completed, CompletedId(snapshot.threadId, previous.updatedAt, snapshot.updatedAt))]
    else []
  }

  function CycleEvents(previous: AlertState, snapshot: Snapshot, newIds: seq<string>): seq<Alert> {
    var cycle := NextCycle(Some(previous), snapshot);
    if previous.status == snapshot.status then []
    else if snapshot.status == WaitingForInput then [CycleAlert(snapshot, InputRequired, cycle)]
    else if snapshot.status == InError then [CycleAlert(snapshot, ErrorAlert, cycle)]
    else if FallsBack(previous, snapshot, newIds) then [CycleAlert(snapshot, ApprovalRequired, cycle)]
    else []
  }

  function NativeEvents(previous: AlertState, snapshot: Snapshot, newIds: seq<string>): seq<Alert> {
    if AbsorbsNativeIds(previous, newIds) then [] else NativeAlerts(snapshot, newIds)
  }

  function Detect(previous: Option<AlertState>, snapshot: Snapshot, ids: seq<string>): Detection {
    if IsStale(previous, snapshot) then Detection(previous.value, [], true)
    else
      var newIds := NewIds(Known(previous), ids);
      var cycle := NextCycle(previous, snapshot);
      var fallback :=
        if snapshot.status != WaitingForApproval || previous.None? then None
        else if FallsBack(previous.value, snapshot, newIds) then Some(cycle)
        else previous.value.fallbackApprovalCycle;
      Detection(
        AlertState(snapshot.threadId, snapshot.status, snapshot.updatedAt, cycle,
                   LastN(Remember(Known(previous), ids), KNOWN_LIMIT), fallback),
        if previous.None? then []
        else NativeEvents(previous.value, snapshot, newIds)
             + CompletedEvents(previous.value, snapshot)
             + CycleEvents(previous.value, snapshot, newIds),
        false)
  }

  lemma {:induction false} NativeAlertsNameSnapshot(snapshot: Snapshot, ids: seq<string>)
    ensures forall a :: a in NativeAlerts(snapshot, ids) ==>
              a.threadId == snapshot.threadId && a.threadTitle == snapshot.title && a.occurredAt == snapshot.updatedAt
  {
    if ids != [] {
      NativeAlertsNameSnapshot(snapshot, ids[1..]);
    }
  }

  lemma EventsNameSnapshot(previous: Option<AlertState>, snapshot: Snapshot, ids: seq<string>)
    ensures forall a :: a in Detect(previous, snapshot, ids).events ==>
              a.threadId == snapshot.threadId && a.threadTitle == snapshot.title && a.occurredAt == snapshot.updatedAt
  {
    NativeAlertsNameSnapshot(snapshot, NewIds(Known(previous), ids));
  }

  /** The two scans over the reported approvals: which are new, and what is known afterwards. */
  method ScanApprovals(before: seq<string>, ids: seq<string>) returns (newIds: seq<string>, known: seq<string>)
    ensures newIds == NewIds(before, ids) && known == LastN(Remember(before, ids), KNOWN_LIMIT)
  {
    newIds, known := [], before;
    for i := 0 to |ids|
      invariant newIds + NewIds(before, ids[i..]) == NewIds(before, ids)
    {
      assert ids[i..][1..] == ids[i + 1..];
      if ids[i] !in before {
        newIds := newIds + [ids[i]];
      }
    }
    for i := 0 to |ids|
      invariant Remember(known, ids[i..]) == Remember(before, ids)
    {
      assert ids[i..][1..] == ids[i + 1..];
      if ids[i] !in known {
        known := known + [ids[i]];
      }
    }
    if |known| > KNOWN_LIMIT {
      known := known[|known| - KNOWN_LIMIT..];
    }
  }

  method NativeApprovalAlerts(snapshot: Snapshot, newIds: seq<string>) returns (events: seq<Alert>)
    ensures events == NativeAlerts(snapshot, newIds)
  {
    events := [];
    for i := 0 to |newIds|
      invariant events + NativeAlerts(snapshot, newIds[i..]) == NativeAlerts(snapshot, newIds)
    {
      assert newIds[i..][1..] == newIds[i + 1..];
      var id := StableEventId(["approval_required", snapshot.threadId, newIds[i]]);
      events := events + [AlertFor(snapshot, ApprovalRequired, id)];
    }
  }

  method DetectAlerts(previous: Option<AlertState>, snapshot: Snapshot, nativeApprovalIds: seq<string>)
    returns (d: Detection)
    ensures d == Detect(previous, snapshot, nativeApprovalIds)
    ensures forall a :: a in d.events ==>
              a.threadId == snapshot.threadId && a.threadTitle == snapshot.title && a.occurredAt == snapshot.updatedAt
  {
    EventsNameSnapshot(previous, snapshot, nativeApprovalIds);
    if previous.Some? && snapshot.updatedAt < previous.value.updatedAt {
      return Detection(previous.value, [], true);
    }
    var statusChanged := previous.Some? && previous.value.status != snapshot.status;
    var cycle := if previous.None? then 0 else previous.value.stateCycle + if statusChanged then 1 else 0;
    var newIds, known := ScanApprovals(Known(previous), nativeApprovalIds);
    var fallback := if previous.None? then None else previous.value.fallbackApprovalCycle;
    if snapshot.status != WaitingForApproval {
      fallback := None;
    }
    var next := AlertState(snapshot.threadId, snapshot.status, snapshot.updatedAt, cycle, known, fallback);
    if previous.None? {
      return Detection(next, [], false);
    }
    var last := previous.value;
    var absorb := last.status == WaitingForApproval && last.fallbackApprovalCycle == Some(last.stateCycle)
                  && last.knownApprovalIds == [] && newIds != [];
    var events := [];
    if !absorb {
      events := NativeApprovalAlerts(snapshot, newIds);
    }
    ghost var native := events;
    if last.status == Running && snapshot.status == Idle {
      var id := StableEventId(["completed", snapshot.threadId, Decimal(last.updatedAt), Decimal(snapshot.updatedAt)]);
      events := events + [AlertFor(snapshot, Completed, id)];
    }
    ghost var completed := CompletedEvents(last, snapshot);
    assert events == native + completed;
    if last.status != WaitingForInput && snapshot.status == WaitingForInput {
      events := events + [CycleAlert(snapshot, InputRequired, cycle)];
    }
    if last.status != InError && snapshot.status == InError {
      events := events + [CycleAlert(snapshot, ErrorAlert, cycle)];
    }
    if last.status != WaitingForApproval && snapshot.status == WaitingForApproval && newIds == [] {
      next := next.(fallbackApprovalCycle := Some(cycle));
      events := events + [CycleAlert(snapshot, ApprovalRequired, cycle)];
    }
    assert events == native + completed + CycleEvents(last, snapshot, newIds);
    d := Detection(next, events, false);
  }
}
