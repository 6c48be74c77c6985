/** Safety of the held-request protocol over whole runs. */
module HeldTheorems {
  import opened Octets
  import opened HeldRequests
  import opened HeldInvariants

  ghost predicate Runs(s: State, steps: seq<Step>)
    decreases |steps|
  {
    Typed(s) && (steps != [] ==> Enabled(s, steps[0]) && Runs(Apply(s, steps[0]), steps[1..]))
  }

  ghost function After(s: State, steps: seq<Step>): (r: State)
    requires Runs(s, steps)
    ensures Typed(r) && |s.procs| <= |r.procs| && |s.store.held| <= |r.store.held|
    decreases |steps|
  {
    if steps == [] then s else After(Apply(s, steps[0]), steps[1..])
  }

  /** No step registers an id while an earlier request with that id has an open stream. */
  ghost predicate Fresh(s: State, steps: seq<Step>)
    requires Runs(s, steps)
    decreases |steps|
  {
    steps != [] ==> Disciplined(s, steps[0]) && Fresh(Apply(s, steps[0]), steps[1..])
  }

  lemma {:induction false} RunKeepsInv(s: State, steps: seq<Step>, unique: bool)
    requires Inv(s, unique) && Runs(s, steps) && (unique ==> Fresh(s, steps))
    ensures Inv(After(s, steps), unique)
    decreases |steps|
  {
    if steps != [] {
      StepKeepsInv(s, steps[0], unique);
      RunKeepsInv(Apply(s, steps[0]), steps[1..], unique);
    }
  }

  /** No lost request. */
  lemma NoRequestIsLost(steps: seq<Step>, h: nat)
    requires Runs(Init, steps) && Fresh(Init, steps)
    requires h < |After(Init, steps).store.held|
    ensures var s := After(Init, steps);
            var x := s.store.held[h];
            && (s.store.InMap(h) || x.sink.completed || Owed(s, h))
            && (s.store.InMap(h) ==> x.err.None?)
            && (s.store.InMap(h) && s.mu.None? ==> (x.claimed <==> x.stream.Some?))
  {
    RunKeepsInv(Init, steps, true);
    assert HeldOk(After(Init, steps), h, true);
  }

  ghost predicate Quiet(s: State) {
    forall p :: 0 <= p < |s.procs| ==> s.procs[p].Ready?
  }

  /** Once every call has returned, each request is still waiting in the map or its waiter was released, once. */
  lemma QuietMeansAnsweredOrWaiting(steps: seq<Step>, h: nat)
    requires Runs(Init, steps) && Fresh(Init, steps) && Quiet(After(Init, steps))
    requires h < |After(Init, steps).store.held|
    ensures var s := After(Init, steps);
            !s.store.InMap(h) ==> s.store.held[h].sink.completed && s.store.held[h].sink.closes == 1
  {
    NoRequestIsLost(steps, h);
    RunKeepsInv(Init, steps, true);
    assert HeldOk(After(Init, steps), h, true);
  }

  /** Start is called at most once per target and its done channel is closed at most once, whatever ids are reused. */
  lemma StartedAndClosedAtMostOnce(steps: seq<Step>, h: nat)
    requires Runs(Init, steps) && h < |After(Init, steps).store.held|
    ensures var sink := After(Init, steps).store.held[h].sink;
            sink.starts <= 1 && sink.closes == if sink.completed then 1 else 0
  {
    RunKeepsInv(Init, steps, false);
    assert HeldOk(After(Init, steps), h, false);
  }

  lemma CompletionStays(s: State, step: Step, h: nat)
    requires Typed(s) && Enabled(s, step) && h < |s.store.held| && s.store.held[h].sink.completed
    ensures h < |Apply(s, step).store.held|
    ensures var x, y := s.store.held[h].sink, Apply(s, step).store.held[h].sink;
            y.completed && y.err == x.err && y.closes == x.closes
  {
    if ChangesMap(step) {
      MapStepKeepsSinks(s, step, h);
    } else {
      OtherStepKeepsCompletion(s, step, h);
    }
  }

  predicate ChangesMap(step: Step) {
    step.Register? || step.StartIngest? || step.Commit? || step.CloseRemove? || step.Cancel? || step.Expire?
  }

  lemma MapStepKeepsSinks(s: State, step: Step, h: nat)
    requires Typed(s) && Enabled(s, step) && ChangesMap(step) && h < |s.store.held|
    ensures h < |Apply(s, step).store.held| && Apply(s, step).store.held[h].sink == s.store.held[h].sink
  {
  }

  lemma OtherStepKeepsCompletion(s: State, step: Step, h: nat)
    requires Typed(s) && Enabled(s, step) && !ChangesMap(step) && h < |s.store.held| && s.store.held[h].sink.completed
    ensures h < |Apply(s, step).store.held|
    ensures var x, y := s.store.held[h].sink, Apply(s, step).store.held[h].sink;
            y.completed && y.err == x.err && y.closes == x.closes
  {
  }

  /** The first completion fixes the outcome for the rest of the run. */
  lemma {:induction false} FirstCompletionWins(s: State, steps: seq<Step>, h: nat)
    requires Runs(s, steps) && h < |s.store.held| && s.store.held[h].sink.completed
    ensures h < |After(s, steps).store.held|
    ensures var x, y := s.store.held[h].sink, After(s, steps).store.held[h].sink;
            y.completed && y.err == x.err && y.closes == x.closes
    decreases |steps|
  {
    if steps != [] {
      CompletionStays(s, steps[0], h);
      FirstCompletionWins(Apply(s, steps[0]), steps[1..], h);
    }
  }

  predicate Begins(step: Step, p: nat) {
    (step.StartIngest? || step.BeginWrite? || step.BeginClose? || step.Cancel? || step.Expire?) && step.p == p
  }

  /** A Write that found its stream cancelled or closed, or its sink completed, and has not handed anything over. */
  ghost predicate HandsNothing(s: State, p: nat) {
    && p < |s.procs|
    && match s.procs[p]
       case Ready(a) => a.Wrote? && a.n == 0 && a.werr.Some?
       case Writing(_, _, late, at) => late
       case _ => false
  }

  lemma StepHandsNothing(s: State, p: nat, step: Step)
    requires Typed(s) && Enabled(s, step) && HandsNothing(s, p) && ProcOk(s, p)
    requires !Begins(step, p)
    ensures HandsNothing(Apply(s, step), p) && (step.WritePut? ==> step.p != p)
  {
    if step.Spawn? || step.Register? || step.CtxDone? || step.p != p {
      OtherStepLeavesCall(s, p, step);
    }
  }

  lemma OtherStepLeavesCall(s: State, p: nat, step: Step)
    requires Typed(s) && Enabled(s, step) && p < |s.procs|
    requires step.Spawn? || step.Register? || step.CtxDone? || step.p != p
    ensures p < |Apply(s, step).procs| && Apply(s, step).procs[p] == s.procs[p]
  {
  }

  lemma {:induction false} HandsNothingStays(s: State, p: nat, rest: seq<Step>, i: nat)
    requires Inv(s, false) && Runs(s, rest) && HandsNothing(s, p)
    requires forall j :: 0 <= j < |rest| ==> !Begins(rest[j], p)
    requires i < |rest|
    ensures HandsNothing(After(s, rest), p)
    ensures rest[i].WritePut? ==> rest[i].p != p
    decreases |rest|
  {
    var s' := Apply(s, rest[0]);
    StepKeepsInv(s, rest[0], false);
    StepHandsNothing(s, p, rest[0]);
    if |rest| > 1 {
      HandsNothingStays(s', p, rest[1..], if i == 0 then 0 else i - 1);
    }
  }

  /** No late bytes: such a Write gives nothing to the response writer, in any continuation, and it fails. */
  lemma LateWriteHandsNothing(before: seq<Step>, p: nat, h: nat, data: Text, rest: seq<Step>, i: nat)
    requires Runs(Init, before) && Enabled(After(Init, before), BeginWrite(p, h, data))
    requires var x := After(Init, before).store.held[h];
             x.stream.value.err.Some? || x.stream.value.done || x.sink.completed
    requires Runs(Apply(After(Init, before), BeginWrite(p, h, data)), rest)
    requires forall j :: 0 <= j < |rest| ==> !Begins(rest[j], p)
    requires i < |rest|
    ensures var s := After(Apply(After(Init, before), BeginWrite(p, h, data)), rest);
            s.procs[p].Ready? ==> s.procs[p].answer.Wrote? && s.procs[p].answer.n == 0 && s.procs[p].answer.werr.Some?
    ensures rest[i].WritePut? ==> rest[i].p != p
  {
    var s := After(Init, before);
    RunKeepsInv(Init, before, false);
    StepKeepsInv(s, BeginWrite(p, h, data), false);
    HandsNothingStays(Apply(s, BeginWrite(p, h, data)), p, rest, i);
  }
}
