/** When may a request id be used again?

    IngestStream.CloseWithError takes the map entry out by id alone (internal/pending/registry.go:201,
    261-265), so closing the stream of an earlier request can throw a later one out of the map.  The
    condition `IdFree` is exactly what keeps that from happening. */
module HeldReuse {
  import opened Octets
  import opened HeldRequests
  import opened HeldInvariants
  import opened HeldTheorems

  /** Out of the map, not answered, and nobody is left who would answer. */
  ghost predicate Lost(s: State, h: nat) {
    && h < |s.store.held|
    && !s.store.InMap(h)
    && !s.store.held[h].sink.completed
    && s.store.held[h].stream.None?
    && !Owed(s, h)
  }

  lemma StepStaysLost(s: State, step: Step, h: nat)
    requires Typed(s) && Enabled(s, step) && Inv(s, false) && Lost(s, h)
    ensures Lost(Apply(s, step), h)
  {
    var s' := Apply(s, step);
    if Owed(s', h) {
      var p :| 0 <= p < |s'.procs| && Owes(s'.procs[p], h);
      if p < |s.procs| { assert ProcOk(s, p) && !Owes(s.procs[p], h); NewDebtsAreFromTheMap(s, step, p, h); }
      assert false;
    }
    LostTargetUntouched(s, step, h);
  }

  /** A goroutine comes to owe a request only by taking it out of the map. */
  lemma NewDebtsAreFromTheMap(s: State, step: Step, p: nat, h: nat)
    requires Typed(s) && Enabled(s, step) && p < |s.procs| && ProcOk(s, p)
    requires Owes(Apply(s, step).procs[p], h)
    ensures Owes(s.procs[p], h) || s.store.InMap(h)
  {
    var c' := Apply(s, step).procs[p];
    var i :| 0 <= i < |c'.queue| && c'.queue[i] == h;
    if step.Tell? && step.p == p {
      assert s.procs[p].queue[i + 1] == h;
    } else if step.StartIngest? || step.Commit? || step.Cancel? || step.Expire? {
      RemovedFromTheMap(s, step, p, i);
    } else if step.Poison? {
      assert c'.queue == s.procs[p].queue;
    } else {
      SameNotices(s, step, p);
    }
  }

  lemma RemovedFromTheMap(s: State, step: Step, p: nat, i: nat)
    requires Typed(s) && Enabled(s, step) && p < |s.procs| && ProcOk(s, p)
    requires step.StartIngest? || step.Commit? || step.Cancel? || step.Expire?
    requires Apply(s, step).procs[p].Notifying? && i < |Apply(s, step).procs[p].queue|
    ensures Apply(s, step).procs[p] == s.procs[p] || s.store.InMap(Apply(s, step).procs[p].queue[i])
  {
  }

  /** The other steps leave and make no goroutine that is telling targets. */
  lemma SameNotices(s: State, step: Step, p: nat)
    requires Typed(s) && Enabled(s, step) && p < |s.procs| && Apply(s, step).procs[p].Notifying?
    requires !(step.StartIngest? || step.Commit? || step.Cancel? || step.Expire? || step.Poison?)
    requires step.Tell? ==> step.p != p
    ensures Apply(s, step).procs[p] == s.procs[p]
  {
  }

  lemma LostTargetUntouched(s: State, step: Step, h: nat)
    requires Typed(s) && Enabled(s, step) && Inv(s, false) && Lost(s, h)
    ensures var s' := Apply(s, step);
            h < |s'.store.held| && !s'.store.InMap(h) && !s'.store.held[h].sink.completed && s'.store.held[h].stream.None?
  {
    if step.Commit? || step.CloseRemove? || step.CloseFinish? || step.CloseMark? || step.Poison? || step.Tell? {
      assert ProcOk(s, step.p);
      FinishingLeavesLost(s, step, h);
    } else if step.Register? || step.StartIngest? || step.Cancel? || step.Expire? {
      MapStepLeavesLost(s, step, h);
    } else {
      OtherStepLeavesLost(s, step, h);
    }
  }

  /** Streams are closed and targets told only by goroutines that are not about this request. */
  lemma FinishingLeavesLost(s: State, step: Step, h: nat)
    requires Typed(s) && Enabled(s, step) && Lost(s, h)
    requires step.Commit? || step.CloseRemove? || step.CloseFinish? || step.CloseMark? || step.Poison? || step.Tell?
    requires ProcOk(s, step.p)
    ensures var s' := Apply(s, step);
            h < |s'.store.held| && !s'.store.InMap(h) && !s'.store.held[h].sink.completed && s'.store.held[h].stream.None?
  {
    if step.Poison? || step.Tell? { assert !Owes(s.procs[step.p], h) && s.procs[step.p].queue[0] != h; }
  }

  lemma MapStepLeavesLost(s: State, step: Step, h: nat)
    requires Typed(s) && Enabled(s, step) && Lost(s, h)
    requires step.Register? || step.StartIngest? || step.Cancel? || step.Expire?
    ensures var s' := Apply(s, step);
            h < |s'.store.held| && !s'.store.InMap(h) && !s'.store.held[h].sink.completed && s'.store.held[h].stream.None?
  {
  }

  lemma OtherStepLeavesLost(s: State, step: Step, h: nat)
    requires Typed(s) && Enabled(s, step) && Lost(s, h)
    requires !(step.Register? || step.StartIngest? || step.Cancel? || step.Expire?)
    requires !(step.Commit? || step.CloseRemove? || step.CloseFinish? || step.CloseMark? || step.Poison? || step.Tell?)
    ensures var s' := Apply(s, step);
            h < |s'.store.held| && !s'.store.InMap(h) && !s'.store.held[h].sink.completed && s'.store.held[h].stream.None?
  {
  }

  /** A lost request stays lost whatever happens next. */
  lemma {:induction false} LostForever(s: State, steps: seq<Step>, h: nat)
    requires Runs(s, steps) && Inv(s, false) && Lost(s, h)
    ensures Lost(After(s, steps), h)
    decreases |steps|
  {
    if steps != [] {
      StepStaysLost(s, steps[0], h);
      StepKeepsInv(s, steps[0], false);
      LostForever(Apply(s, steps[0]), steps[1..], h);
    }
  }

  // ----- the run that loses a request -----

  /** Request `h` has just been registered under the id of `prior`, whose stream is still open. */
  ghost predicate Endangered(s: State, prior: nat, h: nat) {
    && s.mu.None? && prior < |s.store.held| && s.store.InMap(h) && prior != h
    && OpenStream(s.store.held[prior]) && s.store.held[prior].id == s.store.held[h].id
    && s.store.held[h].stream.None? && !s.store.held[h].sink.completed && !Owed(s, h)
  }

  lemma Prepend(s: State, step: Step, steps: seq<Step>)
    requires Typed(s) && Enabled(s, step) && Disciplined(s, step)
    requires Runs(Apply(s, step), steps) && Fresh(Apply(s, step), steps)
    ensures Runs(s, [step] + steps) && Fresh(s, [step] + steps)
    ensures After(s, [step] + steps) == After(Apply(s, step), steps)
  {
    assert ([step] + steps)[1..] == steps;
  }

  lemma ClosingStaysEndangered(s: State, step: Step, prior: nat, h: nat)
    requires Typed(s) && Enabled(s, step) && Endangered(s, prior, h)
    requires (step.BeginClose? && step.h == prior) || ((step.CloseMark? || step.CloseFinish?) && s.procs[step.p].h == prior)
    ensures Endangered(Apply(s, step), prior, h)
  {
  }

  lemma RemoveLoses(s: State, p: nat, prior: nat, h: nat)
    requires Typed(s) && Endangered(s, prior, h) && ClosingBy(s, p, prior) && s.procs[p].cat.Removing?
    ensures Lost(Apply(s, CloseRemove(p)), h)
  {
  }

  /** Finishing a close of the prior stream loses the new request. */
  lemma {:induction false} FinishingCloseLoses(s: State, p: nat, prior: nat, h: nat) returns (steps: seq<Step>)
    requires Typed(s) && Inv(s, false) && Endangered(s, prior, h) && ClosingBy(s, p, prior)
    ensures Runs(s, steps) && Fresh(s, steps) && Lost(After(s, steps), h)
    decreases match s.procs[p].cat { case Marking => 2 case Finishing => 1 case Removing(_) => 0 }
  {
    var step := match s.procs[p].cat { case Marking => CloseMark(p) case Finishing => CloseFinish(p) case Removing(_) => CloseRemove(p) };
    StepKeepsInv(s, step, false);
    InvTyped(Apply(s, step), false);
    if step.CloseRemove? {
      RemoveLoses(s, p, prior, h);
      steps := [];
    } else {
      ClosingStaysEndangered(s, step, prior, h);
      steps := FinishingCloseLoses(Apply(s, step), p, prior, h);
    }
    Prepend(s, step, steps);
    steps := [step] + steps;
  }

  lemma OpenStreamCanLose(s: State, prior: nat, h: nat) returns (steps: seq<Step>)
    requires Typed(s) && Inv(s, false) && Endangered(s, prior, h)
    ensures Runs(s, steps) && Fresh(s, steps) && Lost(After(s, steps), h)
  {
    assert HeldOk(s, prior, false);
    if s.store.held[prior].stream.value.once.Running? {
      var p :| ClosingBy(s, p, prior);
      steps := FinishingCloseLoses(s, p, prior, h);
    } else {
      StepKeepsInv(s, Spawn, false);
      var s1, p := Apply(s, Spawn), |s.procs|;
      InvTyped(s1, false);
      SpawnStaysEndangered(s, prior, h);
      var close := BeginClose(p, prior, None);
      StepKeepsInv(s1, close, false);
      InvTyped(Apply(s1, close), false);
      ClosingStaysEndangered(s1, close, prior, h);
      steps := FinishingCloseLoses(Apply(s1, close), p, prior, h);
      Prepend(s1, close, steps);
      Prepend(s, Spawn, [close] + steps);
      steps := [Spawn] + ([close] + steps);
    }
  }

  lemma SpawnStaysEndangered(s: State, prior: nat, h: nat)
    requires Typed(s) && Endangered(s, prior, h)
    ensures Endangered(Apply(s, Spawn), prior, h)
  {
  }

  /** A run, itself respecting the condition, at whose end request `h` is lost. */
  ghost predicate Loses(s: State, steps: seq<Step>, h: nat) {
    Runs(s, steps) && Fresh(s, steps) && Lost(After(s, steps), h)
  }

  /** Exactly when an id may be registered: no run that respects the condition from then on loses the new
      request, if and only if no earlier request with this id has an open stream. */
  lemma RegisterIsSafeExactlyWhenIdFree(s: State, reg: Step)
    requires Inv(s, true) && Typed(s) && reg.Register? && Enabled(s, reg)
    ensures IdFree(s.store, reg.id) <==>
            forall steps :: !Loses(Apply(s, reg), steps, |s.store.held|)
  {
    var s', h := Apply(s, reg), |s.store.held|;
    WeakerInv(s);
    StepKeepsInv(s, reg, false);
    InvTyped(s', false);
    if IdFree(s.store, reg.id) {
      forall steps | Runs(s', steps) && Fresh(s', steps) ensures !Loses(s', steps, h) {
        StepKeepsInv(s, reg, true);
        RunKeepsInv(s', steps, true);
        assert HeldOk(After(s', steps), h, true);
      }
    } else {
      var prior :| 0 <= prior < h && s.store.held[prior].id == reg.id && OpenStream(s.store.held[prior]);
      NewRequestIsNotOwed(s, reg);
      var steps := OpenStreamCanLose(s', prior, h);
      assert Loses(s', steps, h);
    }
  }

  lemma NewRequestIsNotOwed(s: State, reg: Step)
    requires Inv(s, true) && Typed(s) && reg.Register? && Enabled(s, reg)
    ensures !Owed(Apply(s, reg), |s.store.held|)
  {
    forall p | 0 <= p < |s.procs| ensures !Owes(s.procs[p], |s.store.held|) { assert ProcOk(s, p); }
  }

  lemma WeakerInv(s: State)
    requires Inv(s, true)
    ensures Inv(s, false)
  {
    forall h | 0 <= h < |s.store.held| ensures HeldOk(s, h, false) { assert HeldOk(s, h, true); }
  }

  // ----- debts are paid -----

  /** Nothing can block a goroutine that owes cancellations: its own steps alone pay all of them. */
  lemma {:induction false} DebtsCanBePaid(s: State, p: nat) returns (steps: seq<Step>)
    requires Typed(s) && p < |s.procs| && s.procs[p].Notifying? && s.procs[p].queue != []
    ensures Runs(s, steps) && Fresh(s, steps)
    ensures |steps| == 2 * |s.procs[p].queue| - (if s.procs[p].poisoned then 1 else 0)
    ensures After(s, steps).procs[p] == Ready(s.procs[p].reply)
    ensures forall i :: 0 <= i < |s.procs[p].queue| ==>
              After(s, steps).store.held[s.procs[p].queue[i]].sink.completed
    decreases |s.procs[p].queue|, !s.procs[p].poisoned
  {
    var n := s.procs[p];
    var step := if n.poisoned then Tell(p) else Step.Poison(p);
    var s' := Apply(s, step);
    NotifyKeepsTyped(s, p);
    if n.poisoned && |n.queue| == 1 {
      steps := [];
    } else {
      steps := DebtsCanBePaid(s', p);
      if n.poisoned { FirstCompletionWins(s', steps, n.queue[0]); }
    }
    Prepend(s, step, steps);
    forall i | 0 <= i < |n.queue| ensures After(s', steps).store.held[n.queue[i]].sink.completed {
      if n.poisoned && i > 0 { assert s'.procs[p].queue[i - 1] == n.queue[i]; }
    }
    steps := [step] + steps;
  }

  lemma NotifyKeepsTyped(s: State, p: nat)
    requires Typed(s) && p < |s.procs| && s.procs[p].Notifying? && s.procs[p].queue != []
    ensures Typed(Apply(s, if s.procs[p].poisoned then Tell(p) else Step.Poison(p)))
  {
  }

  // ----- the condition that Register's comment asks for is weaker -----

  /** Two steps, then the rest. */
  lemma Two(s: State, a: Step, b: Step, s': State, rest: seq<Step>) returns (steps: seq<Step>)
    requires Typed(s) && Enabled(s, a) && Disciplined(s, a) && Typed(Apply(s, a))
    requires Enabled(Apply(s, a), b) && Disciplined(Apply(s, a), b) && Apply(Apply(s, a), b) == s'
    requires Runs(s', rest) && Fresh(s', rest)
    ensures Runs(s, steps) && Fresh(s, steps) && After(s, steps) == After(s', rest)
  {
    Prepend(Apply(s, a), b, rest);
    Prepend(s, a, [b] + rest);
    steps := [a] + ([b] + rest);
  }

  const TOKEN: Text := "t"

  /** One request, registered and waiting, with goroutine 0 at rest. */
  function Waiting(id: Text): State {
    State(None, Store(map[id := 0], [Held(id, TOKEN, 1, false, None, None, NewSink(false))]), [Ready(Nothing)])
  }

  /** The same request claimed, its target being started. */
  function Probed(id: Text): State {
    State(Some(0), Store(map[id := 0], [Held(id, TOKEN, 1, true, None, None, NewSink(false).(starts := 1))]), [StartLock(0)])
  }

  /** And streaming. */
  function Streaming(id: Text): State {
    State(None, Store(map[id := 0], [Held(id, TOKEN, 1, true, Some(NewStream), None, NewSink(false).(starts := 1, started := true))]),
          [Ready(GotStream(0))])
  }

  /** Cancelled, with its stream and its target still to be told. */
  function Cancelling(id: Text): State {
    var x := Held(id, TOKEN, 1, true, Some(NewStream), Some(Canceled), NewSink(false).(starts := 1, started := true));
    State(None, Store(map[], [x]), [Notifying([0], Canceled, false, CancelAnswer(true))])
  }

  /** And told. */
  function CancelledState(id: Text): State {
    var sink := NewSink(false).(starts := 1, started := true, completed := true, err := Some(Canceled), closes := 1);
    State(None, Store(map[], [Held(id, TOKEN, 1, true, Some(Stream(false, Some(Canceled), Idle)), Some(Canceled), sink)]),
          [Ready(CancelAnswer(true))])
  }

  lemma ReachCancelled(id: Text) returns (steps: seq<Step>)
    ensures Runs(Cancelling(id), steps) && Fresh(Cancelling(id), steps) && After(Cancelling(id), steps) == CancelledState(id)
  {
    steps := Two(Cancelling(id), Step.Poison(0), Tell(0), CancelledState(id), []);
  }

  lemma ReachCancelling(id: Text, rest: seq<Step>) returns (steps: seq<Step>)
    requires Runs(Cancelling(id), rest) && Fresh(Cancelling(id), rest)
    ensures Runs(Streaming(id), steps) && Fresh(Streaming(id), steps) && After(Streaming(id), steps) == After(Cancelling(id), rest)
  {
    assert Streaming(id).store.Drop(id).entries == map[];
    assert Apply(Streaming(id), Cancel(0, id, None)) == Cancelling(id);
    Prepend(Streaming(id), Cancel(0, id, None), rest);
    steps := [Cancel(0, id, None)] + rest;
  }

  /** After a Cancel has returned the request is over and its id is out of the map, and still the id is not
      free: the cancelled stream has not been closed.  Uniqueness "until canceled" is not enough. */
  lemma CancelledIdIsNotFree(id: Text) returns (steps: seq<Step>)
    ensures Runs(Init, steps) && Fresh(Init, steps)
    ensures var s := After(Init, steps);
            Quiet(s) && s.mu.None? && id !in s.store.entries && |s.store.held| == 1
            && s.store.held[0].sink.completed && !IdFree(s.store, id)
  {
    steps := ReachCancelled(id);
    steps := ReachCancelling(id, steps);
    steps := ReachStreaming(id, steps);
    steps := ReachProbed(id, steps);
    steps := Two(Init, Spawn, Register(id, TOKEN, 1, false, 0), Waiting(id), steps);
    assert OpenStream(CancelledState(id).store.held[0]);
  }

  lemma ReachStreaming(id: Text, rest: seq<Step>) returns (steps: seq<Step>)
    requires Runs(Streaming(id), rest) && Fresh(Streaming(id), rest)
    ensures Runs(Probed(id), steps) && Fresh(Probed(id), steps) && After(Probed(id), steps) == After(Streaming(id), rest)
  {
    steps := Two(Probed(id), Lock(0), Commit(0), Streaming(id), rest);
  }

  lemma ReachProbed(id: Text, rest: seq<Step>) returns (steps: seq<Step>)
    requires Runs(Probed(id), rest) && Fresh(Probed(id), rest)
    ensures Runs(Waiting(id), steps) && Fresh(Waiting(id), steps) && After(Waiting(id), steps) == After(Probed(id), rest)
  {
    steps := Two(Waiting(id), StartIngest(0, id, TOKEN, 0), Probe(0), Probed(id), rest);
  }
}
