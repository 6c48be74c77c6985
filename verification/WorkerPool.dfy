/** The connector's ticket worker pool (cmd/private-connector/main.go, ticketWorkerPool) as a step relation:
    a bounded channel, two wait groups, a closing channel and a shutdown goroutine. */
module WorkerPool {
  import opened Octets

  /** One call of Handle: waiting in the select, about to run its deferred enqueueWG.Done, or returned. */
  datatype At = Waiting | Leaving(accepted: bool) | Returned(accepted: bool)
  {
    predicate Active() {
      !Returned?
    }

    predicate Accepted() {
      !Waiting? && accepted
    }
  }

  datatype HandleCall = HandleCall(ticket: nat, at: At)

  /** A worker goroutine; a job is the number of the Handle call that sent it. */
  datatype Worker = Idle | Busy(job: nat) | Gone

  datatype Closer = NotStarted | AwaitingSenders | AwaitingWorkers | Finished

  /** One call of CloseAndWait. */
  datatype Waiter = Blocked | GotNil | GotContextError

  /** `handled` lists the jobs whose handler has returned.  `panicked` records a send on the closed channel, a
      second close of a channel, or a wait group below zero. */
  datatype Pool = Pool(
      size: nat, jobs: seq<nat>, jobsClosed: bool, closed: bool, done: bool,
      enqueueWG: nat, workerWG: nat,
      calls: seq<HandleCall>, workers: seq<Worker>, closer: Closer, waiters: seq<Waiter>,
      handled: seq<nat>, panicked: bool)
  {
    function SetCall(i: nat, at: At): Pool
      requires i < |calls|
    {
      this.(calls := calls[i := calls[i].(at := at)])
    }

    function SetWorker(w: nat, x: Worker): Pool
      requires w < |workers|
    {
      this.(workers := workers[w := x])
    }
  }

  function NewPool(size: nat): Pool {
    Pool(size, [], false, false, false, 0, size, [], seq(size, _ => Idle), NotStarted, [], [], false)
  }

  datatype Step =
    | Arrive(ticket: nat)
    | Send(i: nat) | GiveUp(i: nat) | TurnAway(i: nat) | Leave(i: nat)
    | Take(w: nat) | Finish(w: nat) | Exit(w: nat)
    | Close | CloseJobs | CloseDone
    | WakeUp(k: nat) | Abandon(k: nat)

  predicate CallAt(s: Pool, i: nat, waiting: bool) {
    i < |s.calls| && (if waiting then s.calls[i].at.Waiting? else s.calls[i].at.Leaving?)
  }

  predicate Enabled(s: Pool, step: Step) {
    match step
    case Arrive(_) => true
    case Send(i) => CallAt(s, i, true) && |s.jobs| < s.size
    case GiveUp(i) => CallAt(s, i, true)
    case TurnAway(i) => CallAt(s, i, true) && s.closed
    case Leave(i) => CallAt(s, i, false)
    case Take(w) => w < |s.workers| && s.workers[w].Idle? && s.jobs != []
    case Finish(w) => w < |s.workers| && s.workers[w].Busy?
    case Exit(w) => w < |s.workers| && s.workers[w].Idle? && s.jobs == [] && s.jobsClosed
    case Close => true
    case CloseJobs => s.closer.AwaitingSenders? && s.enqueueWG == 0
    case CloseDone => s.closer.AwaitingWorkers? && s.workerWG == 0
    case WakeUp(k) => k < |s.waiters| && s.waiters[k].Blocked? && s.done
    case Abandon(k) => k < |s.waiters| && s.waiters[k].Blocked?
  }

  function Apply(s: Pool, step: Step): Pool
    requires Enabled(s, step)
  {
    match step
    case Arrive(t) =>
      if s.closed then s.(calls := s.calls + [HandleCall(t, Returned(false))])
      else s.(calls := s.calls + [HandleCall(t, Waiting)], enqueueWG := s.enqueueWG + 1)
    case Send(i) =>
      if s.jobsClosed then s.(panicked := true)
      else s.SetCall(i, Leaving(true)).(jobs := s.jobs + [i])
    case GiveUp(i) => s.SetCall(i, Leaving(false))
    case TurnAway(i) => s.SetCall(i, Leaving(false))
    case Leave(i) =>
      if s.enqueueWG == 0 then s.(panicked := true)
      else s.SetCall(i, Returned(s.calls[i].at.accepted)).(enqueueWG := s.enqueueWG - 1)
    case Take(w) => s.SetWorker(w, Busy(s.jobs[0])).(jobs := s.jobs[1..])
    case Finish(w) => s.SetWorker(w, Idle).(handled := s.handled + [s.workers[w].job])
    case Exit(w) =>
      if s.workerWG == 0 then s.(panicked := true)
      else s.SetWorker(w, Gone).(workerWG := s.workerWG - 1)
    case Close =>
      if s.closed then s.(waiters := s.waiters + [Blocked])
      else s.(closed := true, closer := AwaitingSenders, waiters := s.waiters + [Blocked])
    case CloseJobs => if s.jobsClosed then s.(panicked := true) else s.(jobsClosed := true, closer := AwaitingWorkers)
    case CloseDone => if s.done then s.(panicked := true) else s.(done := true, closer := Finished)
    case WakeUp(k) => s.(waiters := s.waiters[k := GotNil])
    case Abandon(k) => s.(waiters := s.waiters[k := GotContextError])
  }

  predicate IsRun(s: Pool, steps: seq<Step>)
    decreases |steps|
  {
    steps != [] ==> Enabled(s, steps[0]) && IsRun(Apply(s, steps[0]), steps[1..])
  }

  function After(s: Pool, steps: seq<Step>): Pool
    requires IsRun(s, steps)
    decreases |steps|
  {
    if steps == [] then s else After(Apply(s, steps[0]), steps[1..])
  }

  // ----- counting -----

  function Sum<T>(s: seq<T>, f: T -> nat): nat {
    if s == [] then 0 else f(s[0]) + Sum(s[1..], f)
  }

  lemma {:induction false} SumUpdate<T>(s: seq<T>, f: T -> nat, i: nat, x: T)
    requires i < |s|
    ensures Sum(s[i := x], f) == Sum(s, f) - f(s[i]) + f(x)
  {
    if i == 0 {
      assert s[i := x][1..] == s[1..];
    } else {
      assert s[i := x][1..] == s[1..][i - 1 := x];
      SumUpdate(s[1..], f, i - 1, x);
    }
  }

  lemma {:induction false} SumAppend<T>(s: seq<T>, f: T -> nat, x: T)
    ensures Sum(s + [x], f) == Sum(s, f) + f(x)
  {
    if s == [] {
      assert [x][1..] == [];
    } else {
      assert (s + [x])[1..] == s[1..] + [x];
      SumAppend(s[1..], f, x);
    }
  }

  lemma {:induction false} SumAtLeast<T>(s: seq<T>, f: T -> nat, i: nat)
    requires i < |s|
    ensures Sum(s, f) >= f(s[i])
  {
    if i > 0 { SumAtLeast(s[1..], f, i - 1); }
  }

  /** A positive sum has a positive part. */
  lemma {:induction false} SomePart<T>(s: seq<T>, f: T -> nat) returns (i: nat)
    requires Sum(s, f) > 0
    ensures i < |s| && f(s[i]) > 0
  {
    if f(s[0]) > 0 {
      i := 0;
    } else {
      var j := SomePart(s[1..], f);
      i := j + 1;
    }
  }

  function JobOf(x: Worker): multiset<nat> {
    if x.Busy? then multiset{x.job} else multiset{}
  }

  /** The jobs that workers are handling. */
  function InFlight(workers: seq<Worker>): multiset<nat> {
    if workers == [] then multiset{} else JobOf(workers[0]) + InFlight(workers[1..])
  }

  lemma Regroup(a: multiset<nat>, b: multiset<nat>, c: multiset<nat>, b': multiset<nat>, c': multiset<nat>)
    requires b + c == b' + c'
    ensures a + b + c == a + b' + c'
  {
    assert a + b + c == a + (b + c);
  }

  lemma TailUpdate<T>(s: seq<T>, i: nat, x: T)
    requires 0 < i < |s|
    ensures s[i := x][1..] == s[1..][i - 1 := x] && s[i := x][0] == s[0]
  {
  }

  lemma {:induction false} InFlightUpdate(workers: seq<Worker>, w: nat, x: Worker)
    requires w < |workers|
    ensures InFlight(workers[w := x]) + JobOf(workers[w]) == InFlight(workers) + JobOf(x)
  {
    if w == 0 {
      assert workers[w := x][1..] == workers[1..];
    } else {
      TailUpdate(workers, w, x);
      InFlightUpdate(workers[1..], w - 1, x);
      Regroup(JobOf(workers[0]), InFlight(workers[1..][w - 1 := x]), JobOf(workers[w]), InFlight(workers[1..]), JobOf(x));
    }
  }

  lemma {:induction false} InFlightBound(workers: seq<Worker>)
    ensures |InFlight(workers)| <= |workers|
  {
    if workers != [] { InFlightBound(workers[1..]); }
  }

  lemma {:induction false} NoneInFlight(workers: seq<Worker>)
    requires forall w :: 0 <= w < |workers| ==> !workers[w].Busy?
    ensures InFlight(workers) == multiset{}
  {
    if workers != [] { NoneInFlight(workers[1..]); }
  }
}
