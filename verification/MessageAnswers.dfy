/**
 What a request is told, and what the log counts, read off the steps that were taken: which deliveries there
 were, of which tasks, and who claimed them.
 */
module MessageAnswers {
  import opened MessageDedupe

  /** A delivery of the key ended in `ok`. */
  ghost predicate Ended(past: seq<Step>, tasks: map<NotifyId, Task>, key: Key, ok: bool) {
    exists n :: n in tasks && tasks[n].key == key && Deliver(n, ok) in past
  }

  /** Task `n` was claimed by request `r`, which stays with it and takes over its result. */
  ghost predicate Owns(past: seq<Step>, s: State, r: RequestId, n: NotifyId)
    requires n in s.tasks
  {
    var Task(key, phase) := s.tasks[n];
    && ClaimStep(r, n) in past && Arrive(r, key) in past
    && (Drop(r) !in past ==>
          r in s.requests && (s.requests[r] == Awaiting(key, n) || (phase.Notified? && s.requests[r] == Answered(key, phase.ok))))
  }

  ghost predicate TasksTraced(past: seq<Step>, s: State) {
    && (forall n | n in s.tasks :: exists r :: Owns(past, s, r, n))
    && (forall n | n in s.tasks :: !s.tasks[n].phase.Delivering? ==> Deliver(n, s.tasks[n].phase.ok) in past)
    && (forall n, ok :: Deliver(n, ok) in past ==> n in s.tasks)
  }

  /** The request's own delivery failed. */
  ghost predicate OwnFailed(past: seq<Step>, s: State, r: RequestId, key: Key) {
    exists n :: n in s.tasks && s.tasks[n].key == key && ClaimStep(r, n) in past && Deliver(n, false) in past
  }

  ghost predicate RequestTraced(past: seq<Step>, s: State, r: RequestId)
    requires r in s.requests
  {
    && Arrive(r, s.requests[r].key) in past
    && match s.requests[r]
       case Awaiting(key, n) => n in s.tasks && s.tasks[n].key == key && ClaimStep(r, n) in past
       case Answered(key, accepted) => if accepted then Ended(past, s.tasks, key, true) else OwnFailed(past, s, r, key)
       case _ => true
  }

  ghost predicate Traced(past: seq<Step>, s: State) {
    && TasksTraced(past, s)
    && (forall r :: r in s.requests ==> RequestTraced(past, s, r))
    && (forall key :: IsCompleted(s.cache, key) ==> Ended(past, s.tasks, key, true))
  }

  lemma Grown(past: seq<Step>, step: Step)
    ensures forall x :: x in past + [step] <==> x in past || x == step
  {
  }

  /** Tasks keep their keys, and what was done stays done. */
  lemma EndedStays(past: seq<Step>, s: State, step: Step, key: Key, ok: bool)
    requires Enabled(s, step) && Ended(past, s.tasks, key, ok)
    ensures Ended(past + [step], Next(s, step).tasks, key, ok)
  {
    var n :| n in s.tasks && s.tasks[n].key == key && Deliver(n, ok) in past;
    Grown(past, step);
    assert n in Next(s, step).tasks && Next(s, step).tasks[n].key == key;
  }

  lemma OwnFailedStays(past: seq<Step>, s: State, step: Step, r: RequestId, key: Key)
    requires Enabled(s, step) && OwnFailed(past, s, r, key)
    ensures OwnFailed(past + [step], Next(s, step), r, key)
  {
    var n :| n in s.tasks && s.tasks[n].key == key && ClaimStep(r, n) in past && Deliver(n, false) in past;
    Grown(past, step);
    assert n in Next(s, step).tasks && Next(s, step).tasks[n].key == key;
  }

  lemma OwnsStays(past: seq<Step>, s: State, step: Step, r: RequestId, n: NotifyId)
    requires Inv(s) && Enabled(s, step) && n in s.tasks && Owns(past, s, r, n)
    ensures n in Next(s, step).tasks && Owns(past + [step], Next(s, step), r, n)
  {
    Grown(past, step);
  }

  lemma PhaseTraced(past: seq<Step>, s: State, step: Step, n: NotifyId)
    requires Enabled(s, step) && TasksTraced(past, s) && n in Next(s, step).tasks
    ensures var t := Next(s, step);
            !t.tasks[n].phase.Delivering? ==> Deliver(n, t.tasks[n].phase.ok) in past + [step]
  {
    Grown(past, step);
  }

  lemma TasksStayTraced(past: seq<Step>, s: State, step: Step)
    requires Inv(s) && Enabled(s, step) && Traced(past, s)
    ensures TasksTraced(past + [step], Next(s, step))
  {
    var t := Next(s, step);
    Grown(past, step);
    forall n | n in t.tasks
      ensures exists r :: Owns(past + [step], t, r, n)
      ensures !t.tasks[n].phase.Delivering? ==> Deliver(n, t.tasks[n].phase.ok) in past + [step]
    {
      PhaseTraced(past, s, step, n);
      if n in s.tasks {
        var r :| Owns(past, s, r, n);
        OwnsStays(past, s, step, r, n);
      } else {
        assert RequestTraced(past, s, step.r);
        assert Owns(past + [step], t, step.r, n);
      }
    }
    forall n, ok | Deliver(n, ok) in past + [step]
      ensures n in t.tasks
    {
    }
  }

  lemma CompletedStaysTraced(past: seq<Step>, s: State, step: Step, key: Key)
    requires Inv(s) && Enabled(s, step) && Traced(past, s) && IsCompleted(Next(s, step).cache, key)
    ensures Ended(past + [step], Next(s, step).tasks, key, true)
  {
    if IsCompleted(s.cache, key) {
      EndedStays(past, s, step, key, true);
    } else if step.Settle? && s.tasks[step.n].phase.ok {
      CompleteKeepsFifo(s.cache, s.tasks[step.n].key);
      assert key == s.tasks[step.n].key;
      assert Deliver(step.n, true) in past;
      EndedStays(past, s, step, key, true);
    }
  }

  lemma JoinTraced(past: seq<Step>, s: State, r: RequestId)
    requires Inv(s) && Enabled(s, Join(r)) && Traced(past, s)
    ensures r in Next(s, Join(r)).requests && RequestTraced(past + [Join(r)], Next(s, Join(r)), r)
  {
    Grown(past, Join(r));
    assert RequestTraced(past, s, r);
    var Awaiting(key, n) := s.requests[r];
    assert Deliver(n, s.tasks[n].phase.ok) in past && ClaimStep(r, n) in past && s.tasks[n].key == key;
  }

  lemma ClaimTraced(past: seq<Step>, s: State, r: RequestId, newId: NotifyId)
    requires Inv(s) && Enabled(s, ClaimStep(r, newId)) && Traced(past, s)
    ensures var step := ClaimStep(r, newId);
            r in Next(s, step).requests && RequestTraced(past + [step], Next(s, step), r)
  {
    var step := ClaimStep(r, newId);
    Grown(past, step);
    assert RequestTraced(past, s, r);
    if IsCompleted(s.cache, s.requests[r].key) {
      EndedStays(past, s, step, s.requests[r].key, true);
    }
  }

  predicate OwnStep(step: Step, r: RequestId) {
    (step.Join? || step.ClaimStep? || step.Arrive?) && step.r == r
  }

  /** Other steps leave a request alone, or wake it. */
  lemma OthersLeaveRequest(s: State, step: Step, r: RequestId)
    requires Enabled(s, step) && !OwnStep(step, r) && r in Next(s, step).requests
    ensures r in s.requests && s.requests[r].key == Next(s, step).requests[r].key
    ensures Next(s, step).requests[r] == s.requests[r] || Next(s, step).requests[r].Claiming?
  {
  }

  lemma RequestKept(past: seq<Step>, s: State, step: Step, r: RequestId)
    requires Inv(s) && Enabled(s, step) && Traced(past, s) && r in s.requests && r in Next(s, step).requests
    requires Next(s, step).requests[r] == s.requests[r]
    ensures RequestTraced(past + [step], Next(s, step), r)
  {
    Grown(past, step);
    assert RequestTraced(past, s, r);
    match s.requests[r]
    case Answered(key, accepted) =>
      if accepted {
        EndedStays(past, s, step, key, true);
      } else {
        OwnFailedStays(past, s, step, r, key);
      }
    case _ =>
  }

  lemma RequestsStayTraced(past: seq<Step>, s: State, step: Step, r: RequestId)
    requires Inv(s) && Enabled(s, step) && Traced(past, s) && r in Next(s, step).requests
    ensures RequestTraced(past + [step], Next(s, step), r)
  {
    Grown(past, step);
    if OwnStep(step, r) {
      match step
      case Join(_) => JoinTraced(past, s, r);
      case ClaimStep(_, newId) => ClaimTraced(past, s, r, newId);
      case Arrive(_, _) =>
    } else {
      OthersLeaveRequest(s, step, r);
      if Next(s, step).requests[r] == s.requests[r] {
        RequestKept(past, s, step, r);
      } else {
        assert RequestTraced(past, s, r);
      }
    }
  }

  lemma StepKeepsTraced(past: seq<Step>, s: State, step: Step)
    requires Inv(s) && Enabled(s, step) && Traced(past, s)
    ensures Traced(past + [step], Next(s, step))
  {
    TasksStayTraced(past, s, step);
    forall r | r in Next(s, step).requests
      ensures RequestTraced(past + [step], Next(s, step), r)
    {
      RequestsStayTraced(past, s, step, r);
    }
    forall key | IsCompleted(Next(s, step).cache, key)
      ensures Ended(past + [step], Next(s, step).tasks, key, true)
    {
      CompletedStaysTraced(past, s, step, key);
    }
  }

  lemma {:induction false} RunKeepsTraced(past: seq<Step>, s: State, steps: seq<Step>, t: State)
    requires Inv(s) && Traced(past, s) && Run(s, steps, t)
    ensures Traced(past + steps, t)
    decreases |steps|
  {
    if steps == [] {
      assert past + steps == past;
    } else {
      StepKeepsInv(s, steps[0]);
      StepKeepsTraced(past, s, steps[0]);
      RunKeepsTraced(past + [steps[0]], Next(s, steps[0]), steps[1..], t);
      assert past + [steps[0]] + steps[1..] == past + steps;
    }
  }

  lemma RunIsTraced(steps: seq<Step>, t: State)
    requires Run(INITIAL, steps, t)
    ensures Traced(steps, t)
  {
    InitialInv();
    RunKeepsTraced([], INITIAL, steps, t);
    assert [] + steps == steps;
  }

  /**
   Every answer tells what became of a delivery: an acceptance, that a task of the key delivered; a refusal, that
   the task which the request itself had claimed failed.
   */
  lemma AnswersTellDeliveries(steps: seq<Step>, t: State, r: RequestId)
    requires Run(INITIAL, steps, t) && r in t.requests && t.requests[r].Answered?
    ensures var Answered(key, accepted) := t.requests[r];
            && Arrive(r, key) in steps
            && if accepted
               then exists n :: n in t.tasks && t.tasks[n].key == key && Deliver(n, true) in steps
               else exists n :: n in t.tasks && t.tasks[n].key == key && ClaimStep(r, n) in steps && Deliver(n, false) in steps
  {
    RunIsTraced(steps, t);
    assert RequestTraced(steps, t, r);
  }

  /**
   Every delivery was claimed by a request, and unless that request has given up, its answer, once it has one,
   is the result of the delivery.
   */
  lemma OwnersAreTold(steps: seq<Step>, t: State, n: NotifyId) returns (r: RequestId)
    requires Run(INITIAL, steps, t) && n in t.tasks
    ensures ClaimStep(r, n) in steps && Arrive(r, t.tasks[n].key) in steps
    ensures Drop(r) !in steps ==> r in t.requests && t.requests[r].key == t.tasks[n].key
    ensures Drop(r) !in steps && t.requests[r].Answered? ==>
              (t.requests[r].accepted <==> Deliver(n, true) in steps) && (!t.requests[r].accepted <==> Deliver(n, false) in steps)
  {
    RunIsTraced(steps, t);
    r :| Owns(steps, t, r, n);
    DeliveredOnce(INITIAL, steps, t, n);
  }

  /** A task delivers at most once. */
  lemma {:induction false} DeliveredOnce(s: State, steps: seq<Step>, t: State, n: NotifyId)
    requires Run(s, steps, t)
    ensures !(Deliver(n, true) in steps && Deliver(n, false) in steps)
    ensures n in s.tasks && s.tasks[n].phase != Delivering ==> Deliver(n, true) !in steps && Deliver(n, false) !in steps
    decreases |steps|
  {
    if steps != [] {
      var u := Next(s, steps[0]);
      DeliveredOnce(u, steps[1..], t, n);
      assert forall x :: x in steps <==> x == steps[0] || x in steps[1..];
    }
  }
}
