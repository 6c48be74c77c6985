/** Exactly-once handling and shutdown of the worker pool, over all runs. */
module WorkerPoolTheorems {
  import opened WorkerPool

  function ActiveCall(c: HandleCall): nat {
    if c.at.Active() then 1 else 0
  }

  function LiveWorker(x: Worker): nat {
    if x.Gone? then 0 else 1
  }

  /** Every job that exists anywhere. */
  function Everywhere(s: Pool): multiset<nat> {
    multiset(s.jobs) + InFlight(s.workers) + multiset(s.handled)
  }

  /** Each accepted call is queued, in flight or handled, exactly once; no other call is anywhere. */
  ghost predicate Conserved(s: Pool) {
    forall i: nat :: Everywhere(s)[i] == if i < |s.calls| && s.calls[i].at.Accepted() then 1 else 0
  }

  predicate Phases(s: Pool) {
    && (s.closer.NotStarted? <==> !s.closed)
    && (s.jobsClosed <==> s.closer.AwaitingWorkers? || s.closer.Finished?)
    && (s.done <==> s.closer.Finished?)
  }

  ghost predicate Inv(s: Pool) {
    && s.size >= 1 && |s.workers| == s.size && |s.jobs| <= s.size && !s.panicked
    && Conserved(s) && Phases(s)
    && s.enqueueWG == Sum(s.calls, ActiveCall) && s.workerWG == Sum(s.workers, LiveWorker)
    && (s.jobsClosed ==> s.enqueueWG == 0)
    && (s.done ==> s.workerWG == 0)
    && (forall w :: 0 <= w < |s.workers| && s.workers[w].Gone? ==> s.jobsClosed && s.jobs == [])
    && (forall k :: 0 <= k < |s.waiters| && s.waiters[k].GotNil? ==> s.done)
  }

  lemma {:induction false} AllLive(n: nat)
    ensures Sum(seq(n, _ => Idle), LiveWorker) == n && InFlight(seq(n, _ => Idle)) == multiset{}
  {
    if n > 0 {
      assert seq(n, _ => Idle)[1..] == seq(n - 1, _ => Idle);
      AllLive(n - 1);
    }
  }

  lemma NewPoolInv(size: nat)
    requires size >= 1
    ensures Inv(NewPool(size))
  {
    AllLive(size);
  }

  lemma ArriveKeepsInv(s: Pool, t: nat)
    requires Inv(s)
    ensures Inv(Apply(s, Arrive(t)))
  {
    SumAppend(s.calls, ActiveCall, HandleCall(t, Waiting));
    SumAppend(s.calls, ActiveCall, HandleCall(t, Returned(false)));
    var s' := Apply(s, Arrive(t));
    assert Everywhere(s') == Everywhere(s);
  }

  /** A Handle call that is still active keeps the channel open. */
  lemma ActiveKeepsOpen(s: Pool, i: nat)
    requires Inv(s) && i < |s.calls| && s.calls[i].at.Active()
    ensures s.enqueueWG > 0 && !s.jobsClosed
  {
    SumAtLeast(s.calls, ActiveCall, i);
  }

  lemma SendKeepsInv(s: Pool, i: nat)
    requires Inv(s) && Enabled(s, Send(i))
    ensures Inv(Apply(s, Send(i)))
  {
    ActiveKeepsOpen(s, i);
    var s' := Apply(s, Send(i));
    SumUpdate(s.calls, ActiveCall, i, HandleCall(s.calls[i].ticket, Leaving(true)));
    JobJoins(s.jobs, InFlight(s.workers), multiset(s.handled), i);
    SendConserves(s, i);
  }

  lemma JobJoins(jobs: seq<nat>, b: multiset<nat>, c: multiset<nat>, i: nat)
    ensures multiset(jobs + [i]) + b + c == multiset(jobs) + b + c + multiset{i}
  {
  }

  lemma SendConserves(s: Pool, i: nat)
    requires Conserved(s) && Enabled(s, Send(i)) && !s.jobsClosed
    requires Everywhere(Apply(s, Send(i))) == Everywhere(s) + multiset{i}
    ensures Conserved(Apply(s, Send(i)))
  {
    var s' := Apply(s, Send(i));
    forall j: nat ensures Everywhere(s')[j] == if j < |s'.calls| && s'.calls[j].at.Accepted() then 1 else 0 {
      assert Everywhere(s)[j] == if j < |s.calls| && s.calls[j].at.Accepted() then 1 else 0;
    }
  }

  lemma RefusalKeepsInv(s: Pool, step: Step)
    requires Inv(s) && Enabled(s, step) && (step.GiveUp? || step.TurnAway?)
    ensures Inv(Apply(s, step))
  {
    var i := step.i;
    var s' := Apply(s, step);
    SumUpdate(s.calls, ActiveCall, i, HandleCall(s.calls[i].ticket, Leaving(false)));
    assert Everywhere(s') == Everywhere(s);
    assert forall j: nat :: j != i && j < |s.calls| ==> s'.calls[j] == s.calls[j];
  }

  lemma LeaveKeepsInv(s: Pool, i: nat)
    requires Inv(s) && Enabled(s, Leave(i))
    ensures Inv(Apply(s, Leave(i)))
  {
    ActiveKeepsOpen(s, i);
    var s' := Apply(s, Leave(i));
    SumUpdate(s.calls, ActiveCall, i, HandleCall(s.calls[i].ticket, Returned(s.calls[i].at.accepted)));
    assert Everywhere(s') == Everywhere(s);
    assert forall j: nat :: j != i && j < |s.calls| ==> s'.calls[j] == s.calls[j];
  }

  /** One job goes from the first place to the second. */
  lemma Moves(a: multiset<nat>, b: multiset<nat>, a': multiset<nat>, b': multiset<nat>, j: nat)
    requires a == a' + multiset{j} && b' == b + multiset{j}
    ensures a + b == a' + b'
  {
  }

  /** A worker changes from `x` to `y`; jobs are kept if the change of its job is made up for elsewhere. */
  lemma WorkerKeepsInv(s: Pool, s': Pool, w: nat, y: Worker)
    requires Inv(s) && w < |s.workers| && s'.workers == s.workers[w := y] && Everywhere(s') == Everywhere(s)
    requires s' == s.(workers := s'.workers, jobs := s'.jobs, handled := s'.handled, workerWG := s'.workerWG)
    requires s'.workerWG + LiveWorker(s.workers[w]) == s.workerWG + LiveWorker(y) && s'.workerWG <= s.workerWG
    requires |s'.jobs| <= |s.jobs| && (y.Gone? ==> s.jobsClosed && s.jobs == [])
    ensures Inv(s')
  {
    SumUpdate(s.workers, LiveWorker, w, y);
  }

  lemma HeadAndTail(jobs: seq<nat>)
    requires jobs != []
    ensures multiset(jobs) == multiset(jobs[1..]) + multiset{jobs[0]}
  {
    assert jobs == [jobs[0]] + jobs[1..];
  }

  lemma TakeKeepsInv(s: Pool, w: nat)
    requires Inv(s) && Enabled(s, Take(w))
    ensures Inv(Apply(s, Take(w)))
  {
    var s', j := Apply(s, Take(w)), s.jobs[0];
    InFlightUpdate(s.workers, w, Busy(j));
    HeadAndTail(s.jobs);
    Moves(multiset(s.jobs), InFlight(s.workers), multiset(s'.jobs), InFlight(s'.workers), j);
    WorkerKeepsInv(s, s', w, Busy(j));
  }

  lemma FinishKeepsInv(s: Pool, w: nat)
    requires Inv(s) && Enabled(s, Finish(w))
    ensures Inv(Apply(s, Finish(w)))
  {
    var s', j := Apply(s, Finish(w)), s.workers[w].job;
    InFlightUpdate(s.workers, w, Idle);
    Moves(InFlight(s.workers), multiset(s.handled), InFlight(s'.workers), multiset(s'.handled), j);
    Regroup(multiset(s.jobs), InFlight(s.workers), multiset(s.handled), InFlight(s'.workers), multiset(s'.handled));
    WorkerKeepsInv(s, s', w, Idle);
  }

  lemma ExitKeepsInv(s: Pool, w: nat)
    requires Inv(s) && Enabled(s, Exit(w))
    ensures Inv(Apply(s, Exit(w)))
  {
    var s' := Apply(s, Exit(w));
    SumAtLeast(s.workers, LiveWorker, w);
    InFlightUpdate(s.workers, w, Gone);
    assert forall m: multiset<nat> :: m + multiset{} == m;
    WorkerKeepsInv(s, s', w, Gone);
  }

  lemma ShutdownKeepsInv(s: Pool, step: Step)
    requires Inv(s) && Enabled(s, step)
    requires step.Close? || step.CloseJobs? || step.CloseDone? || step.WakeUp? || step.Abandon?
    ensures Inv(Apply(s, step))
  {
    assert Everywhere(Apply(s, step)) == Everywhere(s);
  }

  lemma StepKeepsInv(s: Pool, step: Step)
    requires Inv(s) && Enabled(s, step)
    ensures Inv(Apply(s, step))
  {
    match step
    case Arrive(t) => ArriveKeepsInv(s, t);
    case Send(i) => SendKeepsInv(s, i);
    case GiveUp(_) => RefusalKeepsInv(s, step);
    case TurnAway(_) => RefusalKeepsInv(s, step);
    case Leave(i) => LeaveKeepsInv(s, i);
    case Take(w) => TakeKeepsInv(s, w);
    case Finish(w) => FinishKeepsInv(s, w);
    case Exit(w) => ExitKeepsInv(s, w);
    case _ => ShutdownKeepsInv(s, step);
  }

  lemma {:induction false} RunKeepsInv(s: Pool, steps: seq<Step>)
    requires Inv(s) && IsRun(s, steps)
    ensures Inv(After(s, steps))
    decreases |steps|
  {
    if steps != [] {
      StepKeepsInv(s, steps[0]);
      RunKeepsInv(Apply(s, steps[0]), steps[1..]);
    }
  }

  // ----- exactly once -----

  /** In every run, a call that Handle accepted is queued, in flight or handled, exactly once; any other call is in
      none of these places; nothing panics and the bounds of the channel and of the workers hold. */
  lemma ExactlyOnce(size: nat, steps: seq<Step>, i: nat)
    requires size >= 1 && IsRun(NewPool(size), steps)
    requires i < |After(NewPool(size), steps).calls|
    ensures var s := After(NewPool(size), steps);
            && multiset(s.jobs)[i] + InFlight(s.workers)[i] + multiset(s.handled)[i] == (if s.calls[i].at.Accepted() then 1 else 0)
            && !s.panicked && |s.jobs| <= size && |InFlight(s.workers)| <= size
  {
    NewPoolInv(size);
    RunKeepsInv(NewPool(size), steps);
    var s := After(NewPool(size), steps);
    assert Everywhere(s)[i] == multiset(s.jobs)[i] + InFlight(s.workers)[i] + multiset(s.handled)[i];
    InFlightBound(s.workers);
    SizeStays(NewPool(size), steps);
  }

  lemma StepKeepsSize(s: Pool, step: Step)
    requires Enabled(s, step)
    ensures Apply(s, step).size == s.size && (s.closed ==> Apply(s, step).closed)
  {
  }

  lemma {:induction false} SizeStays(s: Pool, steps: seq<Step>)
    requires IsRun(s, steps)
    ensures After(s, steps).size == s.size
    decreases |steps|
  {
    if steps != [] {
      StepKeepsSize(s, steps[0]);
      SizeStays(Apply(s, steps[0]), steps[1..]);
    }
  }

  lemma VerdictStays(s: Pool, step: Step, i: nat)
    requires Enabled(s, step) && i < |s.calls| && !s.calls[i].at.Waiting?
    ensures i < |Apply(s, step).calls|
    ensures var x, y := s.calls[i].at, Apply(s, step).calls[i].at; !y.Waiting? && y.accepted == x.accepted
  {
    if step.Arrive? || step.Send? || step.GiveUp? || step.TurnAway? || step.Leave? {
      CallStepKeepsVerdict(s, step, i);
    } else {
      PoolStepKeepsCalls(s, step);
    }
  }

  lemma CallStepKeepsVerdict(s: Pool, step: Step, i: nat)
    requires Enabled(s, step) && i < |s.calls| && !s.calls[i].at.Waiting?
    requires step.Arrive? || step.Send? || step.GiveUp? || step.TurnAway? || step.Leave?
    ensures i < |Apply(s, step).calls|
    ensures var x, y := s.calls[i].at, Apply(s, step).calls[i].at; !y.Waiting? && y.accepted == x.accepted
  {
  }

  lemma PoolStepKeepsCalls(s: Pool, step: Step)
    requires Enabled(s, step) && !(step.Arrive? || step.Send? || step.GiveUp? || step.TurnAway? || step.Leave?)
    ensures Apply(s, step).calls == s.calls
  {
  }

  lemma {:induction false} VerdictStaysOverRuns(s: Pool, steps: seq<Step>, i: nat)
    requires IsRun(s, steps) && i < |s.calls| && !s.calls[i].at.Waiting?
    ensures i < |After(s, steps).calls|
    ensures var x, y := s.calls[i].at, After(s, steps).calls[i].at; !y.Waiting? && y.accepted == x.accepted
    decreases |steps|
  {
    if steps != [] {
      VerdictStays(s, steps[0], i);
      VerdictStaysOverRuns(Apply(s, steps[0]), steps[1..], i);
    }
  }

  /** A ticket whose Handle returned an error is never handled, neither before nor after. */
  lemma RejectedIsNeverHandled(size: nat, before: seq<Step>, after: seq<Step>, i: nat)
    requires size >= 1 && IsRun(NewPool(size), before) && IsRun(After(NewPool(size), before), after)
    requires var s := After(NewPool(size), before); i < |s.calls| && s.calls[i].at == Returned(false)
    ensures i !in After(After(NewPool(size), before), after).handled
  {
    NewPoolInv(size);
    RunKeepsInv(NewPool(size), before);
    var s := After(NewPool(size), before);
    RunKeepsInv(s, after);
    VerdictStaysOverRuns(s, after, i);
    assert Everywhere(After(s, after))[i] == 0;
  }

  /** When CloseAndWait has returned nil, every accepted ticket has been handled, exactly once, and nothing is left. */
  lemma NilMeansAllHandled(size: nat, steps: seq<Step>, k: nat)
    requires size >= 1 && IsRun(NewPool(size), steps)
    requires var s := After(NewPool(size), steps); k < |s.waiters| && s.waiters[k].GotNil?
    ensures var s := After(NewPool(size), steps);
            && s.jobs == [] && (forall w :: 0 <= w < |s.workers| ==> s.workers[w].Gone?)
            && (forall i: nat :: i < |s.calls| ==>
                  s.calls[i].at.Returned? && multiset(s.handled)[i] == if s.calls[i].at.accepted then 1 else 0)
  {
    NewPoolInv(size);
    RunKeepsInv(NewPool(size), steps);
    var s := After(NewPool(size), steps);
    forall w | 0 <= w < |s.workers| ensures s.workers[w].Gone? { SumAtLeast(s.workers, LiveWorker, w); }
    assert s.workers[0].Gone?;
    NoneInFlight(s.workers);
    assert Everywhere(s) == multiset(s.handled);
    forall i: nat | i < |s.calls|
      ensures s.calls[i].at.Returned? && multiset(s.handled)[i] == if s.calls[i].at.accepted then 1 else 0
    {
      SumAtLeast(s.calls, ActiveCall, i);
      assert Everywhere(s)[i] == if s.calls[i].at.Accepted() then 1 else 0;
    }
  }

  // ----- the pool drains -----

  function CallWeight(c: HandleCall): nat {
    match c.at case Waiting => 4 case Leaving(_) => 1 case Returned(_) => 0
  }

  function WorkerWeight(x: Worker): nat {
    match x case Idle => 1 case Busy(_) => 2 case Gone => 0
  }

  function CloserWeight(c: Closer): nat {
    match c case NotStarted => 3 case AwaitingSenders => 2 case AwaitingWorkers => 1 case Finished => 0
  }

  /** The steps the pool can still make on its own. */
  function Measure(s: Pool): nat {
    Sum(s.calls, CallWeight) + 2 * |s.jobs| + Sum(s.workers, WorkerWeight) + CloserWeight(s.closer)
  }

  /** New calls of Handle and CloseAndWait, and the return of CloseAndWait, come from outside. */
  predicate Internal(step: Step) {
    !step.Arrive? && !step.Close? && !step.WakeUp? && !step.Abandon?
  }

  lemma SenderDrains(s: Pool, step: Step)
    requires Inv(s) && Enabled(s, step) && (step.Send? || step.GiveUp? || step.TurnAway? || step.Leave?)
    ensures Measure(Apply(s, step)) < Measure(s)
  {
    ActiveKeepsOpen(s, step.i);
    SumUpdate(s.calls, CallWeight, step.i, Apply(s, step).calls[step.i]);
  }

  lemma WorkerDrains(s: Pool, step: Step)
    requires Inv(s) && Enabled(s, step) && (step.Take? || step.Finish? || step.Exit?)
    ensures Measure(Apply(s, step)) < Measure(s)
  {
    SumAtLeast(s.workers, LiveWorker, step.w);
    SumUpdate(s.workers, WorkerWeight, step.w, Apply(s, step).workers[step.w]);
  }

  lemma CloserDrainsOutsideDoesNot(s: Pool, step: Step)
    requires Phases(s) && s.closed && Enabled(s, step)
    requires step.Arrive? || step.Close? || step.CloseJobs? || step.CloseDone? || step.WakeUp? || step.Abandon?
    ensures if Internal(step) then Measure(Apply(s, step)) < Measure(s) else Measure(Apply(s, step)) == Measure(s)
  {
    if step.Arrive? { SumAppend(s.calls, CallWeight, HandleCall(step.ticket, Returned(false))); }
  }

  lemma EveryStepDrains(s: Pool, step: Step)
    requires Inv(s) && s.closed && Enabled(s, step)
    ensures if Internal(step) then Measure(Apply(s, step)) < Measure(s) else Measure(Apply(s, step)) == Measure(s)
  {
    match step
    case Send(_) => SenderDrains(s, step);
    case GiveUp(_) => SenderDrains(s, step);
    case TurnAway(_) => SenderDrains(s, step);
    case Leave(_) => SenderDrains(s, step);
    case Take(_) => WorkerDrains(s, step);
    case Finish(_) => WorkerDrains(s, step);
    case Exit(_) => WorkerDrains(s, step);
    case _ => CloserDrainsOutsideDoesNot(s, step);
  }

  function Internals(steps: seq<Step>): nat {
    if steps == [] then 0 else (if Internal(steps[0]) then 1 else 0) + Internals(steps[1..])
  }

  /** After closing, whatever calls arrive and in whatever order things happen, the pool makes at most `Measure`
      steps of its own: it cannot stay busy. */
  lemma {:induction false} DrainIsBounded(s: Pool, steps: seq<Step>)
    requires Inv(s) && s.closed && IsRun(s, steps)
    ensures Internals(steps) + Measure(After(s, steps)) <= Measure(s)
    decreases |steps|
  {
    if steps != [] {
      EveryStepDrains(s, steps[0]);
      StepKeepsSize(s, steps[0]);
      StepKeepsInv(s, steps[0]);
      DrainIsBounded(Apply(s, steps[0]), steps[1..]);
    }
  }

  /** And it is never stuck before done is closed. */
  lemma NeverStuck(s: Pool) returns (step: Step)
    requires Inv(s) && s.closed && !s.done
    ensures Internal(step) && Enabled(s, step)
  {
    if s.enqueueWG > 0 {
      var i := SomePart(s.calls, ActiveCall);
      step := if s.calls[i].at.Waiting? then TurnAway(i) else Leave(i);
    } else if !s.jobsClosed {
      step := CloseJobs;
    } else if s.workerWG > 0 {
      var w := SomePart(s.workers, LiveWorker);
      step := if s.workers[w].Busy? then Finish(w) else if s.jobs != [] then Take(w) else Exit(w);
    } else {
      step := CloseDone;
    }
  }

  lemma OneStepOfItsOwn(s: Pool) returns (step: Step, s': Pool)
    requires Inv(s) && s.closed && !s.done
    ensures Internal(step) && Inv(s') && s'.closed && Measure(s') < Measure(s)
    ensures forall rest :: IsRun(s', rest) ==> IsRun(s, [step] + rest) && After(s, [step] + rest) == After(s', rest)
  {
    step := NeverStuck(s);
    EveryStepDrains(s, step);
    StepKeepsSize(s, step);
    StepKeepsInv(s, step);
    s' := Apply(s, step);
    forall rest | IsRun(s', rest) ensures IsRun(s, [step] + rest) && After(s, [step] + rest) == After(s', rest) {
      assert ([step] + rest)[1..] == rest;
    }
  }

  /** So every closed pool reaches done by its own steps, within the measure. */
  lemma {:induction false} Drains(s: Pool) returns (steps: seq<Step>)
    requires Inv(s) && s.closed
    ensures IsRun(s, steps) && After(s, steps).done && |steps| <= Measure(s)
    ensures forall i :: 0 <= i < |steps| ==> Internal(steps[i])
    decreases Measure(s)
  {
    if s.done {
      steps := [];
    } else {
      var step, s' := OneStepOfItsOwn(s);
      var rest := Drains(s');
      steps := [step] + rest;
    }
  }
}
