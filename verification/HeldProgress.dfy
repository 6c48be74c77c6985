/** Progress of the held-request protocol: the registry lock never deadlocks, and from every reachable state the
    running calls can be driven to their return. */
module HeldProgress {
  import opened HeldRequests
  import opened HeldInvariants
  import opened HeldTheorems

  /** A call that is telling targets has one left. */
  ghost predicate Listed(s: State) {
    forall p :: 0 <= p < |s.procs| && s.procs[p].Notifying? ==> s.procs[p].queue != []
  }

  lemma StepKeepsListed(s: State, step: Step)
    requires Typed(s) && Enabled(s, step) && Listed(s)
    ensures Listed(Apply(s, step))
  {
    var s' := Apply(s, step);
    forall p | 0 <= p < |s'.procs| && s'.procs[p].Notifying? ensures s'.procs[p].queue != [] {
      if p < |s.procs| { CallStaysListed(s, step, p); }
    }
  }

  lemma CallStaysListed(s: State, step: Step, p: nat)
    requires Typed(s) && Enabled(s, step) && p < |s.procs| && (s.procs[p].Notifying? ==> s.procs[p].queue != [])
    ensures p < |Apply(s, step).procs|
    ensures Apply(s, step).procs[p].Notifying? ==> Apply(s, step).procs[p].queue != []
  {
  }

  lemma {:induction false} RunKeepsListed(s: State, steps: seq<Step>)
    requires Runs(s, steps) && Listed(s)
    ensures Listed(After(s, steps))
    decreases |steps|
  {
    if steps != [] {
      StepKeepsListed(s, steps[0]);
      RunKeepsListed(Apply(s, steps[0]), steps[1..]);
    }
  }

  /** The steps that a call takes on its own after it has begun. */
  predicate Continues(step: Step) {
    match step
    case Probe(_) => true
    case Lock(_) => true
    case Commit(_) => true
    case WriteProbe(_) => true
    case WriteLock(_) => true
    case WritePut(_, _, _) => true
    case WriteSettle(_, _) => true
    case WriteRecheck(_) => true
    case CloseMark(_) => true
    case CloseFinish(_) => true
    case CloseRemove(_) => true
    case Poison(_) => true
    case Tell(_) => true
    case _ => false
  }

  /** The steps a call still needs, at most. */
  function Work(c: Call): nat {
    match c
    case Ready(_) => 0
    case StartProbe(_) => 4
    case StartLock(_) => 3
    case StartCommit(_, _) => 2
    case Writing(_, _, _, at) => (match at case Probing => 5 case Locking => 4 case Putting => 3 case Settling(_) => 2 case Rechecking(_) => 1)
    case Closing(_, _, at) => (match at case Marking => 3 case Finishing => 2 case Removing(_) => 1)
    case Notifying(queue, _, poisoned, _) => if queue == [] then 0 else 2 * |queue| - if poisoned then 1 else 0
  }

  function TotalWork(procs: seq<Call>): nat {
    if procs == [] then 0 else Work(procs[0]) + TotalWork(procs[1..])
  }

  lemma {:induction false} WorkOfOne(procs: seq<Call>, p: nat, c: Call)
    requires p < |procs|
    ensures TotalWork(procs[p := c]) == TotalWork(procs) - Work(procs[p]) + Work(c)
  {
    if p == 0 {
      assert procs[p := c][1..] == procs[1..];
    } else {
      assert procs[p := c][1..] == procs[1..][p - 1 := c];
      WorkOfOne(procs[1..], p - 1, c);
    }
  }

  /** Every step of a call brings that call closer to its return and leaves the others alone. */
  lemma OwnWorkGoesDown(s: State, step: Step)
    requires Typed(s) && Enabled(s, step) && Continues(step)
    ensures Apply(s, step).procs == s.procs[step.p := Apply(s, step).procs[step.p]]
    ensures Work(Apply(s, step).procs[step.p]) < Work(s.procs[step.p])
  {
  }

  lemma WorkGoesDown(s: State, step: Step)
    requires Typed(s) && Enabled(s, step) && Continues(step)
    ensures TotalWork(Apply(s, step).procs) < TotalWork(s.procs)
  {
    OwnWorkGoesDown(s, step);
    WorkOfOne(s.procs, step.p, Apply(s, step).procs[step.p]);
  }

  /** What a call would do next. */
  function NextStep(c: Call, p: nat): Step
    requires !c.Ready?
  {
    match c
    case StartProbe(_) => Probe(p)
    case StartLock(_) => Lock(p)
    case StartCommit(_, _) => Commit(p)
    case Writing(_, data, _, at) =>
      (match at
       case Probing => WriteProbe(p)
       case Locking => WriteLock(p)
       case Putting => WritePut(p, |data|, false)
       case Settling(_) => WriteSettle(p, false)
       case Rechecking(_) => WriteRecheck(p))
    case Closing(_, _, at) => (match at case Marking => CloseMark(p) case Finishing => CloseFinish(p) case Removing(_) => CloseRemove(p))
    case Notifying(_, _, poisoned, _) => if poisoned then Tell(p) else Poison(p)
  }

  /** No deadlock: while any call is running some call can go on.  Only a close waits, for the registry lock, and the
      StartIngest that holds it is not blocked. */
  lemma SomeoneMoves(s: State, p: nat, unique: bool) returns (step: Step)
    requires Inv(s, unique) && Listed(s) && p < |s.procs| && !s.procs[p].Ready?
    ensures Continues(step) && Enabled(s, step)
  {
    var q := if s.mu.Some? then s.mu.value else p;
    step := NextStep(s.procs[q], q);
  }

  lemma {:induction false} Drains(s: State, unique: bool) returns (steps: seq<Step>)
    requires Inv(s, unique) && Listed(s)
    ensures Runs(s, steps) && Fresh(s, steps) && Quiet(After(s, steps)) && |steps| <= TotalWork(s.procs)
    ensures forall i :: 0 <= i < |steps| ==> Continues(steps[i])
    decreases TotalWork(s.procs)
  {
    InvTyped(s, unique);
    steps := [];
    if p :| 0 <= p < |s.procs| && !s.procs[p].Ready? {
      var step := SomeoneMoves(s, p, unique);
      StepKeepsInv(s, step, unique);
      StepKeepsListed(s, step);
      WorkGoesDown(s, step);
      var rest := Drains(Apply(s, step), unique);
      steps := [step] + rest;
      assert steps[1..] == rest;
    }
  }

  /** From every reachable state, whatever ids were reused, the running calls alone can go on to their return, in a
      bounded number of steps. */
  lemma EveryCallReturns(steps: seq<Step>) returns (more: seq<Step>)
    requires Runs(Init, steps)
    ensures Runs(After(Init, steps), more) && Quiet(After(After(Init, steps), more))
    ensures |more| <= TotalWork(After(Init, steps).procs) && forall i :: 0 <= i < |more| ==> Continues(more[i])
  {
    RunKeepsInv(Init, steps, false);
    RunKeepsListed(Init, steps);
    more := Drains(After(Init, steps), false);
  }

  /** And where no id was reused under an open stream, then the waiter of every request that is out of the map has been
      released, once. */
  lemma EveryDebtIsPaid(steps: seq<Step>) returns (more: seq<Step>)
    requires Runs(Init, steps) && Fresh(Init, steps)
    ensures Runs(After(Init, steps), more) && Quiet(After(After(Init, steps), more))
    ensures |more| <= TotalWork(After(Init, steps).procs) && forall i :: 0 <= i < |more| ==> Continues(more[i])
    ensures var s := After(After(Init, steps), more);
            forall h :: 0 <= h < |s.store.held| && !s.store.InMap(h) ==> s.store.held[h].sink.completed && s.store.held[h].sink.closes == 1
  {
    RunKeepsInv(Init, steps, true);
    RunKeepsListed(Init, steps);
    more := Drains(After(Init, steps), true);
    var s := After(After(Init, steps), more);
    RunKeepsInv(After(Init, steps), more, true);
    forall h | 0 <= h < |s.store.held| && !s.store.InMap(h) ensures s.store.held[h].sink.completed && s.store.held[h].sink.closes == 1 {
      assert HeldOk(s, h, true);
    }
  }
}
