/** The ticketWorkerPool object: each method is one region of cmd/private-connector/main.go, or one undisturbed
    call, and does to the pool what the step relation says. */
module TicketWorkerPool {
  import opened WorkerPool
  import opened WorkerPoolTheorems

  datatype HandleResult = Accepted | PoolClosed | ContextEnded

  /** The step that the select of Handle takes. */
  function Chosen(i: nat, ready: HandleResult): Step {
    match ready
    case Accepted => Send(i)
    case PoolClosed => TurnAway(i)
    case ContextEnded => GiveUp(i)
  }

  /** Worker `w` has handled what was queued, in order, and stops if the channel is closed. */
  function Worked(s: Pool, w: nat): Pool
    requires w < |s.workers| && s.workers[w].Idle?
  {
    var t := s.(jobs := [], handled := s.handled + s.jobs);
    if s.jobsClosed then Apply(t, Exit(w)) else t
  }

  /** One round of the loop is two steps of the pool. */
  lemma RoundIsTwoSteps(s: Pool, w: nat)
    requires w < |s.workers| && s.workers[w].Idle? && s.jobs != []
    ensures Enabled(s, Take(w)) && Enabled(Apply(s, Take(w)), Finish(w))
    ensures Apply(Apply(s, Take(w)), Finish(w)) == s.(jobs := s.jobs[1..], handled := s.handled + [s.jobs[0]])
    ensures Worked(s.(jobs := s.jobs[1..], handled := s.handled + [s.jobs[0]]), w) == Worked(s, w)
  {
    assert s.workers[w := Busy(s.jobs[0])][w := Idle] == s.workers;
    assert s.handled + [s.jobs[0]] + s.jobs[1..] == s.handled + s.jobs;
  }

  lemma RoundKeepsInv(s: Pool, w: nat)
    requires Inv(s) && Enabled(s, Take(w))
    ensures Inv(s.(jobs := s.jobs[1..], handled := s.handled + [s.jobs[0]]))
  {
    RoundIsTwoSteps(s, w);
    StepKeepsInv(s, Take(w));
    StepKeepsInv(Apply(s, Take(w)), Finish(w));
  }

  /** A worker that nobody disturbs: its rounds are a run of the pool. */
  lemma {:induction false} WorkIsARun(s: Pool, w: nat) returns (steps: seq<Step>)
    requires w < |s.workers| && s.workers[w].Idle?
    ensures IsRun(s, steps) && After(s, steps) == Worked(s, w)
    decreases |s.jobs|
  {
    if s.jobs != [] {
      RoundIsTwoSteps(s, w);
      var s' := Apply(s, Take(w));
      var rest := WorkIsARun(Apply(s', Finish(w)), w);
      steps := [Take(w)] + ([Finish(w)] + rest);
      assert steps[1..] == [Finish(w)] + rest && ([Finish(w)] + rest)[1..] == rest;
    } else {
      assert s.handled + [] == s.handled;
      steps := if s.jobsClosed then [Exit(w)] else [];
      assert steps != [] ==> steps[1..] == [];
    }
  }

  class SharedPool {
    const size: nat
    var jobs: seq<nat>  // the buffered channel
    var jobsClosed: bool
    var closed: bool  // and, set in the same region, the closing channel
    var done: bool
    var enqueueWG: nat
    var workerWG: nat
    var handled: seq<nat>  // jobs passed to the handler
    ghost var calls: seq<HandleCall>
    ghost var workers: seq<Worker>
    ghost var closer: Closer
    ghost var waiters: seq<Waiter>

    /** A pool that has not panicked. */
    ghost function View(): Pool
      reads this
    {
      Pool(size, jobs, jobsClosed, closed, done, enqueueWG, workerWG, calls, workers, closer, waiters, handled, false)
    }

    ghost predicate Valid()
      reads this
    {
      Inv(View())
    }

    constructor (size: nat)
      requires size >= 1
      ensures Valid() && View() == NewPool(size)
    {
      this.size := size;
      jobs, jobsClosed, closed, done, enqueueWG, workerWG, handled := [], false, false, false, 0, size, [];
      calls, workers, closer, waiters := [], seq(size, _ => Idle), NotStarted, [];
      new;
      NewPoolInv(size);
    }

    /** The first region of Handle. */
    method Admit(ticket: nat) returns (ok: bool)
      requires Valid()
      modifies this
      ensures Valid() && View() == Apply(old(View()), Arrive(ticket)) && ok == !old(closed)
    {
      StepKeepsInv(View(), Arrive(ticket));
      ok := !closed;
      if ok { enqueueWG := enqueueWG + 1; }
      calls := calls + [HandleCall(ticket, if ok then Waiting else Returned(false))];
    }

    /** The select of Handle, when it can proceed: `ready` is the case that the runtime picked.  The channel that it
        sends on is never closed. */
    method Select(i: nat, ready: HandleResult) returns (r: HandleResult)
      requires Valid() && Enabled(View(), Chosen(i, ready))
      modifies this
      ensures Valid() && View() == Apply(old(View()), Chosen(i, ready)) && r == ready
    {
      StepKeepsInv(View(), Chosen(i, ready));
      ActiveKeepsOpen(View(), i);
      if ready.Accepted? { jobs := jobs + [i]; }
      calls := calls[i := calls[i].(at := Leaving(ready.Accepted?))];
      r := ready;
    }

    /** The deferred enqueueWG.Done: the group never goes below zero. */
    method Depart(i: nat)
      requires Valid() && Enabled(View(), Leave(i))
      modifies this
      ensures Valid() && View() == Apply(old(View()), Leave(i))
    {
      StepKeepsInv(View(), Leave(i));
      ActiveKeepsOpen(View(), i);
      enqueueWG := enqueueWG - 1;
      calls := calls[i := calls[i].(at := Returned(calls[i].at.accepted))];
    }

    /** One round of a worker's loop: receive and handle. */
    method HandleNext(w: nat)
      requires Valid() && Enabled(View(), Take(w))
      modifies this
      ensures Valid() && View() == Apply(Apply(old(View()), Take(w)), Finish(w))
    {
      ghost var was := View();
      RoundIsTwoSteps(was, w);
      RoundKeepsInv(was, w);
      var job := jobs[0];
      jobs := jobs[1..];
      handled := handled + [job];
      assert View() == was.(jobs := was.jobs[1..], handled := was.handled + [was.jobs[0]]);
    }

    /** The deferred workerWG.Done of a worker whose loop has ended. */
    method Stop(w: nat)
      requires Valid() && Enabled(View(), Exit(w))
      modifies this
      ensures Valid() && View() == Apply(old(View()), Exit(w))
    {
      StepKeepsInv(View(), Exit(w));
      SumAtLeast(workers, LiveWorker, w);
      workerWG := workerWG - 1;
      workers := workers[w := Gone];
    }

    /** A worker, undisturbed, among any others: it handles what is queued, in order, and then stops if the channel is
        closed or waits for more. */
    method Work(w: nat)
      requires Valid() && w < |workers| && workers[w].Idle?
      modifies this
      ensures Valid() && View() == Worked(old(View()), w)
    {
      while jobs != []
        invariant Valid() && w < |workers| && workers[w].Idle?
        invariant Worked(View(), w) == Worked(old(View()), w)
        decreases |jobs|
      {
        RoundIsTwoSteps(View(), w);
        HandleNext(w);
      }
      assert handled + [] == handled;
      if jobsClosed { Stop(w); }
    }

    /** The once of CloseAndWait. */
    method BeginClose()
      requires Valid()
      modifies this
      ensures Valid() && View() == Apply(old(View()), Close)
    {
      StepKeepsInv(View(), Close);
      if !closed {
        closed, closer := true, AwaitingSenders;
      }
      waiters := waiters + [Blocked];
    }

    /** The shutdown goroutine, after enqueueWG.Wait: the channel has not been closed before. */
    method CloseChannel()
      requires Valid() && Enabled(View(), CloseJobs)
      modifies this
      ensures Valid() && View() == Apply(old(View()), CloseJobs)
    {
      StepKeepsInv(View(), CloseJobs);
      jobsClosed, closer := true, AwaitingWorkers;
    }

    /** And after workerWG.Wait. */
    method SignalDone()
      requires Valid() && Enabled(View(), CloseDone)
      modifies this
      ensures Valid() && View() == Apply(old(View()), CloseDone)
    {
      StepKeepsInv(View(), CloseDone);
      done, closer := true, Finished;
    }
  }

  /** newTicketWorkerPool refuses a pool without workers or without a handler. */
  method NewTicketWorkerPool(workers: int, hasHandler: bool) returns (pool: SharedPool?)
    ensures workers < 1 || !hasHandler ==> pool == null
    ensures workers >= 1 && hasHandler ==> pool != null && fresh(pool) && pool.Valid() && pool.View() == NewPool(workers)
  {
    if workers < 1 || !hasHandler { return null; }
    pool := new SharedPool(workers);
  }
}
