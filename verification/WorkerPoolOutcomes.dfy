/** What the calls of the worker pool come to (cmd/private-connector/main.go, Handle and CloseAndWait): every answer has its
    reason, and the good ones can be reached from every state. */
module WorkerPoolOutcomes {
  import opened WorkerPool
  import opened WorkerPoolTheorems
  import TP = TicketWorkerPool

  // ----- a bad answer has its reason -----

  /** A waiter that has the context's error was abandoned, and a refused call was given up or found the pool closed. */
  ghost predicate Reasons(s: Pool, past: seq<Step>) {
    && (s.closed ==> Close in past)
    && (forall k: nat :: k < |s.waiters| && s.waiters[k].GotContextError? ==> Abandon(k) in past)
    && (forall i: nat :: i < |s.calls| && !s.calls[i].at.Waiting? && !s.calls[i].at.accepted ==> s.closed || GiveUp(i) in past)
  }

  lemma StepKeepsReasons(s: Pool, past: seq<Step>, step: Step)
    requires Enabled(s, step) && Reasons(s, past)
    ensures Reasons(Apply(s, step), past + [step])
  {
    WaitersHaveReasons(s, past, step);
    CallsHaveReasons(s, past, step);
  }

  lemma WaitersHaveReasons(s: Pool, past: seq<Step>, step: Step)
    requires Enabled(s, step) && Reasons(s, past)
    ensures var s' := Apply(s, step);
            forall k: nat :: k < |s'.waiters| && s'.waiters[k].GotContextError? ==> Abandon(k) in past + [step]
  {
    var s' := Apply(s, step);
    forall k: nat | k < |s'.waiters| && s'.waiters[k].GotContextError? ensures Abandon(k) in past + [step] {
      if k < |s.waiters| && s.waiters[k].GotContextError? { assert Abandon(k) in past; }
    }
  }

  lemma CallsHaveReasons(s: Pool, past: seq<Step>, step: Step)
    requires Enabled(s, step) && Reasons(s, past)
    ensures var s' := Apply(s, step);
            forall i: nat :: i < |s'.calls| && !s'.calls[i].at.Waiting? && !s'.calls[i].at.accepted ==> s'.closed || GiveUp(i) in past + [step]
  {
    var s' := Apply(s, step);
    forall i: nat | i < |s'.calls| && !s'.calls[i].at.Waiting? && !s'.calls[i].at.accepted ensures s'.closed || GiveUp(i) in past + [step] {
      if i < |s.calls| && !s.calls[i].at.Waiting? && !s.calls[i].at.accepted { StepKeepsSize(s, step); }
    }
  }

  lemma {:induction false} RunKeepsReasons(s: Pool, past: seq<Step>, steps: seq<Step>)
    requires IsRun(s, steps) && Reasons(s, past)
    ensures Reasons(After(s, steps), past + steps)
    decreases |steps|
  {
    if steps == [] {
      assert past + steps == past;
    } else {
      StepKeepsReasons(s, past, steps[0]);
      RunKeepsReasons(Apply(s, steps[0]), past + [steps[0]], steps[1..]);
      assert past + [steps[0]] + steps[1..] == past + steps;
    }
  }

  /** In every run: CloseAndWait answers the context's error only if its context ended, and Handle refuses a ticket only if
      its context ended or the pool was closed. */
  lemma BadAnswersHaveReasons(size: nat, steps: seq<Step>)
    requires IsRun(NewPool(size), steps)
    ensures var s := After(NewPool(size), steps);
            && (s.closed ==> Close in steps)
            && (forall k: nat :: k < |s.waiters| && s.waiters[k].GotContextError? ==> Abandon(k) in steps)
            && (forall i: nat :: i < |s.calls| && !s.calls[i].at.Waiting? && !s.calls[i].at.accepted ==> s.closed || GiveUp(i) in steps)
  {
    RunKeepsReasons(NewPool(size), [], steps);
    assert [] + steps == steps;
  }

  // ----- a graceful close answers nil -----

  /** The waiters that are still to be woken. */
  function Asleep(waiters: seq<Waiter>): nat {
    if waiters == [] then 0 else (if waiters[0].Blocked? then 1 else 0) + Asleep(waiters[1..])
  }

  lemma {:induction false} WakingOne(waiters: seq<Waiter>, k: nat)
    requires k < |waiters| && waiters[k].Blocked?
    ensures Asleep(waiters[k := GotNil]) == Asleep(waiters) - 1
  {
    if k == 0 {
      assert waiters[k := GotNil][1..] == waiters[1..];
    } else {
      assert waiters[k := GotNil][1..] == waiters[1..][k - 1 := GotNil];
      WakingOne(waiters[1..], k - 1);
    }
  }

  lemma {:induction false} SomeoneSleeps(waiters: seq<Waiter>, k: nat)
    requires k < |waiters| && waiters[k].Blocked?
    ensures Asleep(waiters) > 0
  {
    if k > 0 { SomeoneSleeps(waiters[1..], k - 1); }
  }

  /** `t` is `s` but for its waiters, and every waiter that was blocked has nil. */
  predicate AllWoken(s: Pool, t: Pool) {
    && t == s.(waiters := t.waiters) && |t.waiters| == |s.waiters|
    && forall k :: 0 <= k < |s.waiters| ==> t.waiters[k] == if s.waiters[k].Blocked? then GotNil else s.waiters[k]
  }

  lemma {:induction false} Wakes(s: Pool) returns (steps: seq<Step>)
    requires s.done
    ensures IsRun(s, steps) && AllWoken(s, After(s, steps)) && forall i :: 0 <= i < |steps| ==> steps[i].WakeUp?
    decreases Asleep(s.waiters)
  {
    steps := [];
    if k :| 0 <= k < |s.waiters| && s.waiters[k].Blocked? {
      WakingOne(s.waiters, k);
      SomeoneSleeps(s.waiters, k);
      var s' := Apply(s, WakeUp(k));
      var rest := Wakes(s');
      steps := [WakeUp(k)] + rest;
      assert steps[1..] == rest;
    }
  }

  lemma {:induction false} Joined(s: Pool, a: seq<Step>, b: seq<Step>)
    requires IsRun(s, a) && IsRun(After(s, a), b)
    ensures IsRun(s, a + b) && After(s, a + b) == After(After(s, a), b)
    decreases |a|
  {
    if a == [] {
      assert a + b == b;
    } else {
      Joined(Apply(s, a[0]), a[1..], b);
      assert (a + b)[1..] == a[1..] + b;
    }
  }

  lemma WaitersSleepOn(s: Pool, step: Step)
    requires Enabled(s, step) && Internal(step)
    ensures Apply(s, step).waiters == s.waiters && |Apply(s, step).calls| == |s.calls|
  {
  }

  lemma {:induction false} WaitersSleepOnOver(s: Pool, steps: seq<Step>)
    requires IsRun(s, steps) && forall i :: 0 <= i < |steps| ==> Internal(steps[i])
    ensures After(s, steps).waiters == s.waiters && |After(s, steps).calls| == |s.calls|
    decreases |steps|
  {
    if steps != [] {
      WaitersSleepOn(s, steps[0]);
      WaitersSleepOnOver(Apply(s, steps[0]), steps[1..]);
    }
  }

  /** From every state reached with the pool closed: the pool's own steps, and then one return for each waiter, leave every
      CloseAndWait that was waiting with nil, and every ticket that was accepted handled, once. */
  lemma GracefulCloseAnswersNil(size: nat, before: seq<Step>) returns (steps: seq<Step>)
    requires size >= 1 && IsRun(NewPool(size), before) && After(NewPool(size), before).closed
    ensures var s := After(NewPool(size), before);
            && IsRun(s, steps) && (forall i :: 0 <= i < |steps| ==> Internal(steps[i]) || steps[i].WakeUp?)
            && var t := After(s, steps);
               && |t.waiters| == |s.waiters|
               && (forall k :: 0 <= k < |s.waiters| ==> t.waiters[k] == if s.waiters[k].Blocked? then GotNil else s.waiters[k])
               && |t.calls| == |s.calls|
               && (forall i: nat :: i < |t.calls| ==> t.calls[i].at.Returned? && multiset(t.handled)[i] == if t.calls[i].at.accepted then 1 else 0)
  {
    var s := After(NewPool(size), before);
    NewPoolInv(size);
    RunKeepsInv(NewPool(size), before);
    var drain := Drains(s);
    WaitersSleepOnOver(s, drain);
    var d := After(s, drain);
    RunKeepsInv(s, drain);
    DoneMeansHandled(d);
    var wake := Wakes(d);
    Joined(s, drain, wake);
    steps := drain + wake;
    forall i | 0 <= i < |steps| ensures Internal(steps[i]) || steps[i].WakeUp? { assert steps[i] == if i < |drain| then drain[i] else wake[i - |drain|]; }
  }

  lemma DoneMeansHandled(s: Pool)
    requires Inv(s) && s.done
    ensures forall i: nat :: i < |s.calls| ==> s.calls[i].at.Returned? && multiset(s.handled)[i] == if s.calls[i].at.accepted then 1 else 0
  {
    forall w | 0 <= w < |s.workers| ensures s.workers[w].Gone? { SumAtLeast(s.workers, LiveWorker, w); }
    assert s.workers[0].Gone?;
    NoneInFlight(s.workers);
    forall i: nat | i < |s.calls|
      ensures s.calls[i].at.Returned? && multiset(s.handled)[i] == if s.calls[i].at.accepted then 1 else 0
    {
      SumAtLeast(s.calls, ActiveCall, i);
      assert Everywhere(s)[i] == if s.calls[i].at.Accepted() then 1 else 0;
      assert multiset(s.jobs)[i] == 0;
    }
  }

  // ----- an open pool takes tickets -----

  lemma Then(s: Pool, step: Step, rest: seq<Step>) returns (steps: seq<Step>)
    requires Enabled(s, step) && IsRun(Apply(s, step), rest)
    ensures steps == [step] + rest && IsRun(s, steps) && After(s, steps) == After(Apply(s, step), rest)
  {
    steps := [step] + rest;
    assert steps[1..] == rest;
  }

  lemma OpenWorkerLives(s: Pool)
    requires Inv(s) && !s.closed
    ensures |s.workers| >= 1 && !s.workers[0].Gone? && !s.jobsClosed
  {
  }

  /** Worker 0 of an open pool, in the end idle with nothing queued. */
  lemma Rests(s: Pool) returns (steps: seq<Step>)
    requires Inv(s) && !s.closed
    ensures IsRun(s, steps)
    ensures var t := After(s, steps);
            && Inv(t) && !t.closed && t.jobs == [] && |t.workers| >= 1 && t.workers[0].Idle? && t.calls == s.calls
            && forall j :: j in s.jobs ==> j in t.handled
  {
    OpenWorkerLives(s);
    var idle := s;
    steps := [];
    if s.workers[0].Busy? {
      StepKeepsInv(s, Finish(0));
      idle := Apply(s, Finish(0));
    }
    var work := TP.WorkIsARun(idle, 0);
    RunKeepsInv(idle, work);
    if s.workers[0].Busy? { steps := Then(s, Finish(0), work); } else { steps := work; }
  }

  /** Whenever the pool is open and its channel has room or can be emptied, which is always, an arriving ticket can be
      accepted and handled: no reachable state shuts tickets out. */
  lemma TicketsGetThrough(size: nat, before: seq<Step>, ticket: nat) returns (steps: seq<Step>)
    requires size >= 1 && IsRun(NewPool(size), before) && !After(NewPool(size), before).closed
    ensures var s := After(NewPool(size), before);
            && IsRun(s, steps)
            && var t := After(s, steps);
               |t.calls| == |s.calls| + 1 && t.calls[|s.calls|] == HandleCall(ticket, Returned(true)) && |s.calls| in t.handled
  {
    var s := After(NewPool(size), before);
    NewPoolInv(size);
    RunKeepsInv(NewPool(size), before);
    var rest := Rests(s);
    var more := Accepts(After(s, rest), ticket);
    Joined(s, rest, more);
    steps := rest + more;
  }

  lemma Accepts(s: Pool, ticket: nat) returns (steps: seq<Step>)
    requires Inv(s) && !s.closed && s.jobs == []
    ensures IsRun(s, steps)
    ensures var t := After(s, steps);
            |t.calls| == |s.calls| + 1 && t.calls[|s.calls|] == HandleCall(ticket, Returned(true)) && |s.calls| in t.handled
  {
    var i := |s.calls|;
    var s1 := Apply(s, Arrive(ticket));
    var s2 := Apply(s1, Send(i));
    StepKeepsInv(s, Arrive(ticket));
    StepKeepsInv(s1, Send(i));
    ActiveKeepsOpen(s2, i);
    StepKeepsInv(s2, Leave(i));
    var s3 := Apply(s2, Leave(i));
    assert !s3.closed && s3.jobs == [i];
    var rest := Rests(s3);
    assert i in s3.jobs;
    steps := Then(s2, Leave(i), rest);
    steps := Then(s1, Send(i), steps);
    steps := Then(s, Arrive(ticket), steps);
  }
}
