/** Safety and progress of the upload-source registry over whole runs. */
module UploadTheorems {
  import opened Octets
  import opened UploadSources
  import opened UploadInvariants

  ghost predicate IsRun(s: State, steps: seq<Step>)
    decreases |steps|
  {
    s.store.Ok() && (steps != [] ==> Enabled(s, steps[0]) && IsRun(Apply(s, steps[0]), steps[1..]))
  }

  ghost function After(s: State, steps: seq<Step>): (r: State)
    requires IsRun(s, steps)
    ensures r.store.Ok() && |s.store.held| <= |r.store.held|
    decreases |steps|
  {
    if steps == [] then s else After(Apply(s, steps[0]), steps[1..])
  }

  lemma {:induction false} RunKeepsInv(s: State, steps: seq<Step>)
    requires Inv(s) && IsRun(s, steps)
    ensures Inv(After(s, steps))
    decreases |steps|
  {
    if steps != [] {
      StepKeepsInv(s, steps[0]);
      RunKeepsInv(Apply(s, steps[0]), steps[1..]);
    }
  }

  /** Single termination: in every run, each source is claimed at most once, its done channel and its body are
      closed at most once, and at most one Cancel answers true for it. */
  lemma EverythingAtMostOnce(steps: seq<Step>, h: nat)
    requires IsRun(Init, steps) && h < |After(Init, steps).store.held|
    ensures var x := After(Init, steps).store.held[h];
            x.claims <= 1 && x.doneCloses <= 1 && x.bodyCloses <= 1 && x.cancels <= 1
  {
    RunKeepsInv(Init, steps);
    var s := After(Init, steps);
    assert HeldOk(s, h);
    if s.store.held[h].once.Running? {
      var p :| RunBy(s, p, h);
      assert ProcOk(s, p);
    }
  }

  /** Out of the map means terminated, or about to be. */
  lemma NoSourceIsLost(steps: seq<Step>, h: nat)
    requires IsRun(Init, steps) && h < |After(Init, steps).store.held|
    ensures var s := After(Init, steps);
            s.store.InMap(h) || s.store.held[h].once.Finished? || Owed(s, h)
  {
    RunKeepsInv(Init, steps);
    assert HeldOk(After(Init, steps), h);
  }

  ghost predicate Quiet(s: State) {
    forall p :: 0 <= p < |s.procs| ==> s.procs[p].Ready?
  }

  /** Once every call has returned, a source is either in the map with its body open, or out of it with its body
      and its done channel closed exactly once. */
  lemma QuietMeansOpenOrClosed(steps: seq<Step>, h: nat)
    requires IsRun(Init, steps) && Quiet(After(Init, steps)) && h < |After(Init, steps).store.held|
    ensures var s := After(Init, steps);
            var x := s.store.held[h];
            if s.store.InMap(h) then x.doneCloses == 0 && x.bodyCloses == 0 else x.doneCloses == 1 && x.bodyCloses == 1
  {
    RunKeepsInv(Init, steps);
    var s := After(Init, steps);
    assert HeldOk(s, h);
    assert forall p :: !RunBy(s, p, h);
  }

  lemma VerdictStays(s: State, step: Step, h: nat)
    requires s.store.Ok() && Enabled(s, step) && h < |s.store.held| && !s.store.held[h].once.Idle?
    ensures h < |Apply(s, step).store.held|
    ensures var x, y := s.store.held[h], Apply(s, step).store.held[h];
            !y.once.Idle? && y.terminalErr == x.terminalErr
  {
  }

  /** The first terminator decides the terminal error. */
  lemma {:induction false} FirstTerminationWins(s: State, steps: seq<Step>, h: nat)
    requires IsRun(s, steps) && h < |s.store.held| && !s.store.held[h].once.Idle?
    ensures h < |After(s, steps).store.held| && After(s, steps).store.held[h].terminalErr == s.store.held[h].terminalErr
    decreases |steps|
  {
    if steps != [] {
      VerdictStays(s, steps[0], h);
      FirstTerminationWins(Apply(s, steps[0]), steps[1..], h);
    }
  }

  // ----- progress -----

  function Rank(at: At): nat {
    match at
    case Entering => 3
    case Removing => 2
    case Signalling => 1
    case Closing => 0
  }

  /** The steps a call still needs, at most. */
  function Work(c: Call): (n: nat)
    ensures c.Ready? ==> n == 0
  {
    if c.Terminating? && c.queue != [] then 4 * |c.queue| + Rank(c.at) - 3 else 0
  }

  function TotalWork(procs: seq<Call>): nat {
    if procs == [] then 0 else Work(procs[0]) + TotalWork(procs[1..])
  }

  lemma {:induction false} WorkOfOne(procs: seq<Call>, p: nat, c: Call)
    requires p < |procs|
    ensures TotalWork(procs[p := c]) == TotalWork(procs) - Work(procs[p]) + Work(c)
  {
    if p == 0 {
      assert procs[p := c][1..] == procs[1..];
    } else {
      assert procs[p := c][1..] == procs[1..][p - 1 := c];
      WorkOfOne(procs[1..], p - 1, c);
    }
  }

  predicate Terminates(step: Step) {
    step.Enter? || step.Remove? || step.Signal? || step.CloseBody?
  }

  /** Every step of a termination brings the running calls closer to their return. */
  lemma WorkGoesDown(s: State, step: Step)
    requires s.store.Ok() && Enabled(s, step) && Terminates(step)
    ensures TotalWork(Apply(s, step).procs) < TotalWork(s.procs)
  {
    WorkOfOne(s.procs, step.p, Apply(s, step).procs[step.p]);
  }

  /** While any call is running, some terminating step is enabled: waiting for a once never deadlocks. */
  lemma SomeoneMoves(s: State, p: nat) returns (step: Step)
    requires Inv(s) && p < |s.procs| && s.procs[p].Terminating?
    ensures Terminates(step) && Enabled(s, step)
  {
    assert ProcOk(s, p);
    var h := s.procs[p].queue[0];
    var q := p;
    if s.procs[p].at.Entering? && s.store.held[h].once.Running? {
      assert HeldOk(s, h);
      q :| RunBy(s, q, h);
    }
    assert ProcOk(s, q);
    step := match s.procs[q].at case Entering => Enter(q) case Removing => Remove(q) case Signalling => Signal(q) case Closing => CloseBody(q);
  }

  lemma {:induction false} Drains(s: State) returns (steps: seq<Step>)
    requires Inv(s)
    ensures IsRun(s, steps) && Quiet(After(s, steps)) && |steps| <= TotalWork(s.procs)
    ensures forall i :: 0 <= i < |steps| ==> Terminates(steps[i])
    decreases TotalWork(s.procs)
  {
    steps := [];
    if p :| 0 <= p < |s.procs| && s.procs[p].Terminating? {
      var step := SomeoneMoves(s, p);
      StepKeepsInv(s, step);
      WorkGoesDown(s, step);
      var rest := Drains(Apply(s, step));
      steps := [step] + rest;
      assert steps[1..] == rest;
    }
  }

  /** From every reachable state the running calls can be driven to their return, and then every source out of the
      map has been terminated. */
  lemma DebtsCanBePaid(steps: seq<Step>) returns (more: seq<Step>)
    requires IsRun(Init, steps)
    ensures IsRun(After(Init, steps), more) && Quiet(After(After(Init, steps), more))
    ensures var s := After(After(Init, steps), more);
            forall h :: 0 <= h < |s.store.held| ==> s.store.InMap(h) || s.store.held[h].once.Finished?
  {
    RunKeepsInv(Init, steps);
    more := Drains(After(Init, steps));
    var s := After(After(Init, steps), more);
    RunKeepsInv(After(Init, steps), more);
    forall h | 0 <= h < |s.store.held| ensures s.store.InMap(h) || s.store.held[h].once.Finished? {
      assert HeldOk(s, h);
    }
  }

  // ----- the context watcher goes by id -----

  /** Every watcher that is still waiting would cancel its own source, or nothing. */
  predicate WatchersAtHome(st: Store) {
    forall h: nat :: h < |st.held| && st.held[h].watch.Waiting? && st.held[h].id in st.entries ==> st.entries[st.held[h].id] == h
  }

  /** No watcher of an earlier source with this id is still waiting. */
  predicate Unwatched(st: Store, id: Text) {
    forall h: nat :: h < |st.held| && st.held[h].id == id ==> !st.held[h].watch.Waiting?
  }

  lemma RegisterKeepsWatchersHome(st: Store, id: Text, token: Text, deadline: int, watched: bool)
    requires st.Ok() && WatchersAtHome(st) && id !in st.entries && Unwatched(st, id)
    ensures WatchersAtHome(st.Register(id, token, deadline, watched))
  {
    var st' := st.Register(id, token, deadline, watched);
    assert forall h: nat :: h < |st.held| ==> st'.held[h] == st.held[h];
  }

  ghost predicate Careful(s: State, steps: seq<Step>)
    requires IsRun(s, steps)
    decreases |steps|
  {
    steps != [] ==> (steps[0].Register? ==> Unwatched(s.store, steps[0].id)) && Careful(Apply(s, steps[0]), steps[1..])
  }

  lemma StepKeepsWatchersHome(s: State, step: Step)
    requires s.store.Ok() && Enabled(s, step) && WatchersAtHome(s.store) && !step.Register?
    ensures WatchersAtHome(Apply(s, step).store)
  {
    WatchersOnlyEnd(s, step);
    MapOnlyShrinks(s, step);
  }

  lemma WatchersOnlyEnd(s: State, step: Step)
    requires s.store.Ok() && Enabled(s, step) && !step.Register?
    ensures var st, st' := s.store, Apply(s, step).store;
            && |st'.held| == |st.held|
            && forall h: nat :: h < |st.held| ==> st'.held[h].id == st.held[h].id && (st'.held[h].watch.Waiting? ==> st.held[h].watch.Waiting?)
  {
  }

  lemma MapOnlyShrinks(s: State, step: Step)
    requires s.store.Ok() && Enabled(s, step) && !step.Register?
    ensures var st, st' := s.store, Apply(s, step).store;
            forall id :: id in st'.entries ==> id in st.entries && st'.entries[id] == st.entries[id]
  {
  }

  lemma {:induction false} RunKeepsWatchersHome(s: State, steps: seq<Step>)
    requires IsRun(s, steps) && Careful(s, steps) && WatchersAtHome(s.store)
    ensures WatchersAtHome(After(s, steps).store)
    decreases |steps|
  {
    if steps != [] {
      match steps[0] {
        case Register(id, token, deadline, watched, _) =>
          RegisterKeepsWatchersHome(s.store, id, token, deadline, watched);
        case _ =>
          StepKeepsWatchersHome(s, steps[0]);
      }
      RunKeepsWatchersHome(Apply(s, steps[0]), steps[1..]);
    }
  }

  /** After the careful run `steps` the watcher of source `h` takes another source, `g`, out of the map. */
  ghost predicate Steals(s: State, steps: seq<Step>, p: nat, h: nat, g: nat) {
    && h != g && IsRun(s, steps) && Careful(s, steps) && Enabled(After(s, steps), WatchFires(p, h))
    && After(s, steps).store.InMap(g) && !Apply(After(s, steps), WatchFires(p, h)).store.InMap(g)
  }

  lemma AtHomeNothingIsStolen(s: State, p: nat, h: nat, g: nat)
    requires s.store.Ok() && WatchersAtHome(s.store) && Enabled(s, WatchFires(p, h)) && s.store.InMap(g) && g != h
    ensures Apply(s, WatchFires(p, h)).store.InMap(g)
  {
  }

  /** A waiting watcher of an earlier source with the id of source `g`: its context ends and it cancels `g`. */
  lemma WatchedCanBeStolen(s: State, h: nat, g: nat) returns (steps: seq<Step>)
    requires s.store.Ok() && h != g && h < |s.store.held| && s.store.held[h].watch.Waiting?
    requires s.store.InMap(g) && s.store.held[g].id == s.store.held[h].id
    ensures Steals(s, steps, |s.procs|, h, g)
  {
    var s1 := Apply(s, CtxDone(h));
    var s2 := Apply(s1, Spawn);
    assert s1.store.Ok() && s2.store.Ok();
    var spawn := Cons(s1, Spawn, s2, []);
    steps := Cons(s, CtxDone(h), s1, spawn);
    assert steps[1..] == spawn && spawn[1..] == [];
  }

  /** Exactly when an id may be registered: no careful run from then on lets the context of another source take the
      new one out of the map, if and only if no watcher of an earlier source with this id is still waiting. */
  lemma RegisterIsSafeExactlyWhenUnwatched(s: State, reg: Step)
    requires s.store.Ok() && WatchersAtHome(s.store) && reg.Register? && Enabled(s, reg)
    ensures Unwatched(s.store, reg.id) <==>
            forall steps, p: nat, h: nat :: !Steals(Apply(s, reg), steps, p, h, |s.store.held|)
  {
    var s', g := Apply(s, reg), |s.store.held|;
    if Unwatched(s.store, reg.id) {
      RegisterKeepsWatchersHome(s.store, reg.id, reg.token, reg.deadline, reg.watched);
      forall steps, p: nat, h: nat | IsRun(s', steps) && Careful(s', steps) ensures !Steals(s', steps, p, h, g) {
        RunKeepsWatchersHome(s', steps);
        if Steals(s', steps, p, h, g) { AtHomeNothingIsStolen(After(s', steps), p, h, g); }
      }
    } else {
      var h: nat :| h < g && s.store.held[h].id == reg.id && s.store.held[h].watch.Waiting?;
      assert s'.store.held[h] == s.store.held[h];
      var steps := WatchedCanBeStolen(s', h, g);
      assert Steals(s', steps, |s'.procs|, h, g);
    }
  }

  /** In careful runs a context only ever cancels its own source. */
  lemma ContextCancelsItsOwnSource(steps: seq<Step>, p: nat, h: nat, g: nat)
    requires IsRun(Init, steps) && Careful(Init, steps) && Enabled(After(Init, steps), WatchFires(p, h))
    requires After(Init, steps).store.InMap(g) && g != h
    ensures Apply(After(Init, steps), WatchFires(p, h)).store.InMap(g)
  {
    RunKeepsWatchersHome(Init, steps);
  }

  /** A run in which it cancels another: source 0 is cancelled, its context ends, its id is registered again
      for source 1, and only then the watcher of source 0 wakes up. */
  lemma ContextCanCancelAnother(id: Text, token: Text, e: Failure) returns (steps: seq<Step>)
    ensures IsRun(Init, steps)
    ensures var s := After(Init, steps);
            && |s.store.held| == 2 && s.procs == [Terminating([1], Some(ContextDone), ByCancel, Entering)]
            && !s.store.held[1].ctxDone && !s.store.InMap(1) && s.store.held[0].once.Finished?
  {
    var x := NewSource(id, token, 9, true).(ctxDone := true);
    var z := x.(terminalErr := Some(e), doneCloses := 1, bodyCloses := 1, once := Finished, cancels := 1);
    var s1 := State(Store(map[id := 0], [x]), [Ready(Nothing)]);
    var s2 := State(Store(map[], [z]), [Ready(CancelAnswer(true))]);
    steps := WatcherRun(s2, id, token, z);
    steps := CancelRun(s1, id, e, x, s2, steps);
    var spawned := State(Store(map[], []), [Ready(Nothing)]);
    var registered := State(Store(map[id := 0], [NewSource(id, token, 9, true)]), [Ready(Nothing)]);
    steps := Cons(registered, CtxDone(0), s1, steps);
    assert Store(map[], []).Register(id, token, 9, true) == registered.store;
    steps := Cons(spawned, Register(id, token, 9, true, 0), registered, steps);
    steps := Cons(Init, Spawn, spawned, steps);
  }

  lemma Cons(s: State, step: Step, s': State, rest: seq<Step>) returns (steps: seq<Step>)
    requires s.store.Ok() && Enabled(s, step) && Apply(s, step) == s' && IsRun(s', rest)
    ensures steps == [step] + rest && IsRun(s, steps) && After(s, steps) == After(s', rest)
  {
    steps := [step] + rest;
    assert steps[1..] == rest;
  }

  /** Cancel of the only source, undisturbed. */
  lemma CancelRun(s: State, id: Text, e: Failure, x: Source, s': State, rest: seq<Step>) returns (steps: seq<Step>)
    requires s == State(Store(map[id := 0], [x]), [Ready(Nothing)])
    requires x.id == id && x.once.Idle? && x.doneCloses == 0 && x.bodyCloses == 0 && x.cancels == 0
    requires var z := x.(terminalErr := Some(e), doneCloses := 1, bodyCloses := 1, once := Finished, cancels := 1);
             s' == State(Store(map[], [z]), [Ready(CancelAnswer(true))])
    requires IsRun(s', rest)
    ensures IsRun(s, steps) && After(s, steps) == After(s', rest)
  {
    var s1 := State(Store(map[], [x]), [Terminating([0], Some(e), ByCancel, Entering)]);
    steps := OnceRun(s1, e, x, s', rest);
    assert s.store.Drop(id).entries == map[];
    steps := Cons(s, Cancel(0, id, Some(e)), s1, steps);
  }

  lemma OnceRun(s1: State, e: Failure, x: Source, s': State, rest: seq<Step>) returns (steps: seq<Step>)
    requires s1 == State(Store(map[], [x]), [Terminating([0], Some(e), ByCancel, Entering)])
    requires x.once.Idle? && x.doneCloses == 0 && x.bodyCloses == 0 && x.cancels == 0
    requires var z := x.(terminalErr := Some(e), doneCloses := 1, bodyCloses := 1, once := Finished, cancels := 1);
             s' == State(Store(map[], [z]), [Ready(CancelAnswer(true))])
    requires IsRun(s', rest)
    ensures IsRun(s1, steps) && After(s1, steps) == After(s', rest)
  {
    var c := Terminating([0], Some(e), ByCancel, Entering);
    var y := x.(once := Running, terminalErr := Some(e));
    var s2 := State(Store(map[], [y]), [c.(at := Removing)]);
    var s3 := State(Store(map[], [y]), [c.(at := Signalling)]);
    var s4 := State(Store(map[], [y.(doneCloses := 1)]), [c.(at := Closing)]);
    steps := Cons(s4, CloseBody(0), s', rest);
    steps := Cons(s3, Signal(0), s4, steps);
    steps := Cons(s2, Remove(0), s3, steps);
    steps := Cons(s1, Enter(0), s2, steps);
  }

  lemma WatcherRun(s: State, id: Text, token: Text, z: Source) returns (steps: seq<Step>)
    requires s == State(Store(map[], [z]), [Ready(CancelAnswer(true))]) && z.id == id && z.watch.Waiting? && z.ctxDone
    ensures IsRun(s, steps)
    ensures var r := After(s, steps);
            && |r.store.held| == 2 && r.procs == [Terminating([1], Some(ContextDone), ByCancel, Entering)]
            && !r.store.held[1].ctxDone && !r.store.InMap(1) && r.store.held[0].once == z.once
  {
    var t := State(Store(map[id := 1], [z, NewSource(id, token, 9, false)]), [Ready(CancelAnswer(true))]);
    var u := State(Store(map[], [z.(watch := Returned), NewSource(id, token, 9, false)]),
                   [Terminating([1], Some(ContextDone), ByCancel, Entering)]);
    assert t.store.Drop(id).entries == map[];
    steps := Cons(t, WatchFires(0, 0), u, []);
    assert s.store.Register(id, token, 9, false) == t.store;
    steps := Cons(s, Register(id, token, 9, false, 0), t, steps);
  }
}
