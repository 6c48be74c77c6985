/** What every step of the held-request protocol keeps. */
module HeldInvariants {
  import opened Octets
  import opened HeldRequests

  ghost predicate Owes(c: Call, h: nat) {
    c.Notifying? && exists i :: 0 <= i < |c.queue| && c.queue[i] == h
  }

  /** Some goroutine still has to cancel the target of request `h`. */
  ghost predicate Owed(s: State, h: nat) {
    exists p :: 0 <= p < |s.procs| && Owes(s.procs[p], h)
  }

  ghost predicate ClosingBy(s: State, p: nat, h: nat) {
    p < |s.procs| && s.procs[p].Closing? && s.procs[p].h == h
  }

  ghost predicate StartingNow(s: State, h: nat) {
    && s.mu.Some? && s.mu.value < |s.procs|
    && Starting(s.procs[s.mu.value]) && s.procs[s.mu.value].h == h
  }

  /** An ingest stream that has been handed out and whose close has not finished. */
  predicate OpenStream(x: Held) {
    x.stream.Some? && !x.stream.value.once.Finished?
  }

  ghost predicate SinkOk(x: Held) {
    && (x.stream.Some? ==> x.claimed)
    && (!x.claimed ==> x.sink.starts == 0)
    && x.sink.starts <= 1
    && (x.sink.started ==> x.sink.starts == 1)
    && (x.stream.None? ==> x.sink.handed == [])
    && x.sink.closes == (if x.sink.completed then 1 else 0)
  }

  ghost predicate HeldOk(s: State, h: nat, unique: bool)
    requires h < |s.store.held|
  {
    var x := s.store.held[h];
    && SinkOk(x)
    && (s.store.InMap(h) ==> x.err.None?)
    && (s.store.InMap(h) && x.claimed && x.stream.None? ==> StartingNow(s, h))
    && (unique ==> s.store.InMap(h) || x.sink.completed || Owed(s, h))
    && (x.stream.Some? && x.stream.value.once.Running? ==> exists p :: ClosingBy(s, p, h))
    && (unique && OpenStream(x) && x.id in s.store.entries ==> s.store.entries[x.id] == h)
  }

  ghost predicate ProcOk(s: State, p: nat)
    requires p < |s.procs|
  {
    var c := s.procs[p];
    && CallOk(s.store, c)
    && (Starting(c) ==>
          && s.mu == Some(p) && s.store.InMap(c.h) && s.store.held[c.h].claimed && s.store.held[c.h].stream.None?
          && (c.StartProbe? ==> s.store.held[c.h].sink.starts == 0)
          && (c.StartLock? ==> s.store.held[c.h].sink.starts == 1))
    && (c.Writing? && c.late ==> s.store.held[c.h].sink.completed && (c.at.Probing? || c.at.Locking?))
    && (c.Closing? ==>
          && s.store.held[c.h].stream.value.once.Running?
          && (c.cat.Removing? ==> s.store.held[c.h].sink.completed && c.cat.answer == s.store.held[c.h].sink.err))
    && (c.Notifying? ==> forall i :: 0 <= i < |c.queue| ==> !s.store.InMap(c.queue[i]))
  }

  /** The invariant.  Without `unique` it holds of every run; with `unique`, of the runs that never reuse
      an id while an earlier request with it has an open stream. */
  ghost predicate Inv(s: State, unique: bool) {
    && s.store.Ok()
    && (forall h :: 0 <= h < |s.store.held| ==> HeldOk(s, h, unique))
    && (forall p :: 0 <= p < |s.procs| ==> ProcOk(s, p))
    && (forall p, q, h: nat :: ClosingBy(s, p, h) && ClosingBy(s, q, h) ==> p == q)
    && (s.mu.Some? ==> s.mu.value < |s.procs| && Starting(s.procs[s.mu.value]))
  }

  /** The id may be registered (again): no earlier request with it still has an open stream. */
  predicate IdFree(st: Store, id: Text) {
    forall h :: 0 <= h < |st.held| && st.held[h].id == id ==> !OpenStream(st.held[h])
  }

  predicate Disciplined(s: State, step: Step) {
    step.Register? ==> IdFree(s.store, step.id)
  }

  // ----- steps that touch one goroutine and one request only -----

  /** What such a step may change in a request. */
  ghost predicate Later(x: Held, y: Held) {
    && y.id == x.id && y.token == x.token && y.deadline == x.deadline
    && y.claimed == x.claimed && y.err == x.err && SinkOk(y)
    && (y.stream.Some? <==> x.stream.Some?)
    && (x.stream.Some? && !x.stream.value.once.Idle? ==> y.stream.value.once == x.stream.value.once)
    && (x.stream.Some? && x.stream.value.once.Idle? ==> !y.stream.value.once.Finished?)
    && (x.sink.completed ==> y.sink.completed && y.sink.err == x.sink.err)
  }

  ghost predicate Local(s: State, s': State, p: nat, h: nat) {
    && s'.mu == s.mu && s'.store.entries == s.store.entries
    && |s'.store.held| == |s.store.held| && |s'.procs| == |s.procs|
    && p < |s.procs| && h < |s.store.held|
    && (forall g :: 0 <= g < |s.store.held| && g != h ==> s'.store.held[g] == s.store.held[g])
    && (forall q :: 0 <= q < |s.procs| && q != p ==> s'.procs[q] == s.procs[q])
    && Later(s.store.held[h], s'.store.held[h])
  }

  lemma OwedStays(s: State, s': State, p: nat, h: nat)
    requires p < |s.procs| == |s'.procs|
    requires forall q :: 0 <= q < |s.procs| && q != p ==> s'.procs[q] == s.procs[q]
    requires Owed(s, h)
    requires Owes(s.procs[p], h) ==> Owes(s'.procs[p], h)
    ensures Owed(s', h)
  {
    var q :| 0 <= q < |s.procs| && Owes(s.procs[q], h);
    assert Owes(s'.procs[q], h);
  }

  lemma LocalKeepsProcs(s: State, s': State, p: nat, h: nat, unique: bool)
    requires Inv(s, unique) && Local(s, s', p, h) && ProcOk(s', p)
    requires s.store.held[h].sink.starts == s'.store.held[h].sink.starts || Starting(s.procs[p])
    ensures forall q :: 0 <= q < |s'.procs| ==> ProcOk(s', q)
  {
    forall q | 0 <= q < |s'.procs| ensures ProcOk(s', q) {
      assert ProcOk(s, q) && ProcOk(s, p);
      assert forall g: nat :: s'.store.InMap(g) == s.store.InMap(g);
    }
  }

  /** The hypotheses of a local step that concern the goroutine. */
  ghost predicate LocalCall(s: State, s': State, p: nat, h: nat)
    requires Local(s, s', p, h)
  {
    var c, c' := s.procs[p], s'.procs[p];
    var x, y := s.store.held[h], s'.store.held[h];
    && ProcOk(s', p)
    && (x.sink.starts == y.sink.starts || Starting(c))
    && (Starting(c) <==> Starting(c')) && (Starting(c) ==> c'.h == c.h)
    && (c.Closing? ==> c'.Closing? && c'.h == c.h)
    && (c'.Closing? ==> c.Closing? || (c'.h == h && x.stream.Some? && x.stream.value.once.Idle?))
    && (forall g: nat :: Owes(c, g) ==> Owes(c', g) || (g == h && y.sink.completed))
    && (x.stream.Some? && x.stream.value.once.Idle? && y.stream.value.once.Running? ==> ClosingBy(s', p, h))
  }

  lemma LocalKeepsHeld(s: State, s': State, p: nat, h: nat, g: nat, unique: bool)
    requires Inv(s, unique) && Local(s, s', p, h) && LocalCall(s, s', p, h)
    requires g < |s.store.held|
    ensures HeldOk(s', g, unique)
  {
    assert HeldOk(s, g, unique);
    assert s'.store.InMap(g) == s.store.InMap(g);
    if Owed(s, g) && !s'.store.held[g].sink.completed { OwedStays(s, s', p, g); }
    var x := s.store.held[g];
    if x.stream.Some? && x.stream.value.once.Running? {
      var q :| ClosingBy(s, q, g);
      assert ClosingBy(s', q, g);
    }
  }

  lemma LocalKeepsInv(s: State, s': State, p: nat, h: nat, unique: bool)
    requires Inv(s, unique) && Local(s, s', p, h) && LocalCall(s, s', p, h)
    ensures Inv(s', unique)
  {
    LocalKeepsProcs(s, s', p, h, unique);
    forall g | 0 <= g < |s'.store.held| ensures HeldOk(s', g, unique) {
      LocalKeepsHeld(s, s', p, h, g, unique);
    }
    forall q, r, g: nat | ClosingBy(s', q, g) && ClosingBy(s', r, g) ensures q == r {
      assert q != p ==> ClosingBy(s, q, g) && ProcOk(s, q);
      assert r != p ==> ClosingBy(s, r, g) && ProcOk(s, r);
      assert s.procs[p].Closing? && s'.procs[p].h == g ==> ClosingBy(s, p, g);
    }
  }

  lemma InvTyped(s: State, unique: bool)
    requires Inv(s, unique)
    ensures Typed(s)
  {
    forall p | 0 <= p < |s.procs| ensures CallOk(s.store, s.procs[p]) {
      assert ProcOk(s, p);
    }
  }

  ghost predicate IsLocal(s: State, s': State, p: nat, h: nat) {
    Local(s, s', p, h) && LocalCall(s, s', p, h)
  }

  lemma WriteCheckIsLocal(s: State, step: Step)
    requires Typed(s) && Enabled(s, step) && (step.WriteProbe? || step.WriteLock?)
    requires ProcOk(s, step.p) && SinkOk(s.store.held[s.procs[step.p].h])
    ensures IsLocal(s, Apply(s, step), step.p, s.procs[step.p].h)
  {
  }

  lemma WriteReturnIsLocal(s: State, step: Step)
    requires Typed(s) && Enabled(s, step) && (step.WriteSettle? || step.WriteRecheck?)
    requires ProcOk(s, step.p) && SinkOk(s.store.held[s.procs[step.p].h])
    ensures IsLocal(s, Apply(s, step), step.p, s.procs[step.p].h)
  {
  }

  lemma PutIsLocal(s: State, step: Step)
    requires Typed(s) && Enabled(s, step) && step.WritePut?
    requires ProcOk(s, step.p) && SinkOk(s.store.held[s.procs[step.p].h])
    ensures IsLocal(s, Apply(s, step), step.p, s.procs[step.p].h)
  {
  }

  lemma StartIsLocal(s: State, step: Step)
    requires Typed(s) && Enabled(s, step) && (step.Probe? || step.Lock?)
    requires ProcOk(s, step.p) && SinkOk(s.store.held[s.procs[step.p].h])
    ensures IsLocal(s, Apply(s, step), step.p, s.procs[step.p].h)
  {
  }

  lemma CloseIsLocal(s: State, step: Step)
    requires Typed(s) && Enabled(s, step) && (step.CloseMark? || step.CloseFinish?)
    requires ProcOk(s, step.p) && SinkOk(s.store.held[s.procs[step.p].h])
    ensures IsLocal(s, Apply(s, step), step.p, s.procs[step.p].h)
  {
  }

  lemma PoisonIsLocal(s: State, step: Step)
    requires Typed(s) && Enabled(s, step) && step.Poison?
    requires ProcOk(s, step.p) && SinkOk(s.store.held[s.procs[step.p].queue[0]])
    ensures IsLocal(s, Apply(s, step), step.p, s.procs[step.p].queue[0])
  {
  }

  lemma TellIsLocal(s: State, step: Step)
    requires Typed(s) && Enabled(s, step) && step.Tell?
    requires ProcOk(s, step.p) && SinkOk(s.store.held[s.procs[step.p].queue[0]])
    ensures IsLocal(s, Apply(s, step), step.p, s.procs[step.p].queue[0])
  {
    var n := s.procs[step.p];
    var h := n.queue[0];
    var s' := Apply(s, step);
    forall g: nat | Owes(n, g) ensures Owes(s'.procs[step.p], g) || (g == h && s'.store.held[h].sink.completed) {
      var i :| 0 <= i < |n.queue| && n.queue[i] == g;
      if i > 0 { assert s'.procs[step.p].queue[i - 1] == g; }
    }
  }

  lemma BeginIsLocal(s: State, step: Step)
    requires Typed(s) && Enabled(s, step) && (step.BeginWrite? || step.BeginClose?)
    requires ProcOk(s, step.p) && SinkOk(s.store.held[step.h])
    ensures IsLocal(s, Apply(s, step), step.p, step.h)
  {
    if step.BeginWrite? { BeginWriteIsLocal(s, step); } else { BeginCloseIsLocal(s, step); }
  }

  lemma BeginWriteIsLocal(s: State, step: Step)
    requires Typed(s) && Enabled(s, step) && step.BeginWrite?
    requires ProcOk(s, step.p) && SinkOk(s.store.held[step.h])
    ensures IsLocal(s, Apply(s, step), step.p, step.h)
  {
  }

  lemma BeginCloseIsLocal(s: State, step: Step)
    requires Typed(s) && Enabled(s, step) && step.BeginClose?
    requires ProcOk(s, step.p) && SinkOk(s.store.held[step.h])
    ensures IsLocal(s, Apply(s, step), step.p, step.h)
  {
  }

  lemma CtxDoneIsLocal(s: State, step: Step)
    requires Typed(s) && Enabled(s, step) && step.CtxDone? && |s.procs| > 0
    requires ProcOk(s, 0) && SinkOk(s.store.held[step.h])
    ensures IsLocal(s, Apply(s, step), 0, step.h)
  {
    var s' := Apply(s, step);
    assert s'.procs == s.procs && s'.store.entries == s.store.entries;
    assert forall g: nat :: s'.store.InMap(g) == s.store.InMap(g);
    assert Later(s.store.held[step.h], s'.store.held[step.h]);
  }

  // ----- steps that change the map -----

  lemma SpawnKeepsInv(s: State, unique: bool)
    requires Inv(s, unique) && Typed(s)
    ensures Inv(Apply(s, Spawn), unique)
  {
    var s' := Apply(s, Spawn);
    forall h | 0 <= h < |s'.store.held| ensures HeldOk(s', h, unique) {
      assert HeldOk(s, h, unique);
      if Owed(s, h) {
        var p :| 0 <= p < |s.procs| && Owes(s.procs[p], h);
        assert Owes(s'.procs[p], h);
      }
      var x := s.store.held[h];
      if x.stream.Some? && x.stream.value.once.Running? {
        var p :| ClosingBy(s, p, h);
        assert ClosingBy(s', p, h);
      }
    }
    forall p | 0 <= p < |s'.procs| ensures ProcOk(s', p) {
      assert p < |s.procs| ==> ProcOk(s, p);
    }
    assert forall p, h: nat :: ClosingBy(s', p, h) ==> ClosingBy(s, p, h);
  }

  /** When a step rearranges the map: every other request keeps its place and its debts. */
  lemma OthersKeep(s: State, s': State, p: nat, g: nat, unique: bool)
    requires Inv(s, unique) && p < |s.procs| == |s'.procs| && g < |s.store.held| <= |s'.store.held|
    requires forall q :: 0 <= q < |s.procs| && q != p ==> s'.procs[q] == s.procs[q]
    requires s'.store.held[g] == s.store.held[g]
    requires s'.store.InMap(g) ==> s.store.InMap(g)
    requires unique ==> s'.store.InMap(g) == s.store.InMap(g)
    requires s.store.held[g].id in s'.store.entries ==>
               s.store.held[g].id in s.store.entries && s'.store.entries[s.store.held[g].id] == s.store.entries[s.store.held[g].id]
    requires StartingNow(s, g) ==> StartingNow(s', g)
    requires Owes(s.procs[p], g) ==> Owes(s'.procs[p], g)
    requires ClosingBy(s, p, g) ==> ClosingBy(s', p, g)
    ensures HeldOk(s', g, unique)
  {
    assert HeldOk(s, g, unique);
    if Owed(s, g) { OwedStays(s, s', p, g); }
    var x := s.store.held[g];
    if x.stream.Some? && x.stream.value.once.Running? {
      var q :| ClosingBy(s, q, g);
      assert ClosingBy(s', q, g);
    }
  }

  /** A step of goroutine `p` inside a registry lock region: nothing enters the map but a new request. */
  ghost predicate Remap(s: State, s': State, p: nat) {
    && p < |s.procs| == |s'.procs| && |s.store.held| <= |s'.store.held|
    && (s.mu.None? || s.mu == Some(p))
    && (forall q :: 0 <= q < |s.procs| && q != p ==> s'.procs[q] == s.procs[q])
    && (forall g :: 0 <= g < |s.store.held| ==>
          && (s'.store.InMap(g) ==> s.store.InMap(g))
          && s'.store.held[g].sink == s.store.held[g].sink
          && (s.store.held[g].stream.Some? ==>
                && s'.store.held[g].stream.Some?
                && (s'.store.held[g].stream.value.once == s.store.held[g].stream.value.once || ClosingBy(s, p, g))))
  }

  lemma RemapKeepsProc(s: State, s': State, p: nat, q: nat, unique: bool)
    requires Inv(s, unique) && Remap(s, s', p) && q < |s.procs| && q != p
    ensures ProcOk(s', q)
  {
    assert ProcOk(s, q);
    if s.procs[q].Closing? { assert ClosingBy(s, q, s.procs[q].h); }
  }

  lemma RemapKeepsInv(s: State, s': State, p: nat, unique: bool)
    requires Inv(s, unique) && Remap(s, s', p) && ProcOk(s', p) && s'.store.Ok()
    requires forall h :: 0 <= h < |s'.store.held| ==> HeldOk(s', h, unique)
    requires !s'.procs[p].Closing?
    requires s'.mu == if Starting(s'.procs[p]) then Some(p) else None
    ensures Inv(s', unique)
  {
    forall q | 0 <= q < |s'.procs| ensures ProcOk(s', q) {
      if q != p { RemapKeepsProc(s, s', p, q, unique); }
    }
    assert forall q, h: nat :: ClosingBy(s', q, h) ==> ClosingBy(s, q, h);
  }

  lemma RegisterKeepsHeld(s: State, step: Step, g: nat, unique: bool)
    requires Inv(s, unique) && Typed(s) && Enabled(s, step) && step.Register? && (unique ==> Disciplined(s, step))
    requires g < |s.store.held|
    ensures HeldOk(Apply(s, step), g, unique) && Apply(s, step).store.InMap(g) == s.store.InMap(g)
  {
    var s' := Apply(s, step);
    assert HeldOk(s, g, unique);
    if unique && s.store.held[g].id == step.id { assert !OpenStream(s.store.held[g]); }
    if Owed(s, g) {
      var p :| 0 <= p < |s.procs| && Owes(s.procs[p], g);
      assert Owes(s'.procs[p], g);
    }
    if p :| ClosingBy(s, p, g) { assert ClosingBy(s', p, g); }
  }

  lemma RegisterKeepsInv(s: State, step: Step, unique: bool)
    requires Inv(s, unique) && Typed(s) && Enabled(s, step) && step.Register? && (unique ==> Disciplined(s, step))
    ensures Inv(Apply(s, step), unique)
  {
    var s' := Apply(s, step);
    forall g | 0 <= g < |s.store.held| ensures HeldOk(s', g, unique) && s'.store.InMap(g) == s.store.InMap(g) {
      RegisterKeepsHeld(s, step, g, unique);
    }
    assert HeldOk(s', |s.store.held|, unique);
    forall p | 0 <= p < |s.procs| ensures ProcOk(s', p) { assert ProcOk(s, p); }
    assert forall q, h: nat :: ClosingBy(s', q, h) ==> ClosingBy(s, q, h);
  }

  lemma StartIngestKeepsInv(s: State, step: Step, unique: bool)
    requires Inv(s, unique) && Typed(s) && Enabled(s, step) && step.StartIngest?
    ensures Inv(Apply(s, step), unique)
  {
    var s' := Apply(s, step);
    var a := s.store.Admission(step.id, step.token, step.now);
    assert ProcOk(s, step.p);
    forall g | 0 <= g < |s.store.held| ensures HeldOk(s', g, unique) && (s'.store.InMap(g) ==> s.store.InMap(g)) {
      StartIngestKeepsHeld(s, step, g, unique);
    }
    if a.Claimed? { assert HeldOk(s, a.h, unique); }
    StartIngestIsRemap(s, step);
    RemapKeepsInv(s, s', step.p, unique);
  }

  lemma StartIngestIsRemap(s: State, step: Step)
    requires Typed(s) && Enabled(s, step) && step.StartIngest?
    requires var a := s.store.Admission(step.id, step.token, step.now);
             a.Claimed? ==> SinkOk(s.store.held[a.h]) && s.store.held[a.h].stream.None?
    ensures var s' := Apply(s, step);
            Remap(s, s', step.p) && ProcOk(s', step.p) && s'.store.Ok() && !s'.procs[step.p].Closing?
            && s'.mu == (if Starting(s'.procs[step.p]) then Some(step.p) else None)
  {
    AdmittedCallIsOk(s, step.p, step.id, step.token, step.now);
  }

  lemma AdmittedCallIsOk(s: State, p: nat, id: Text, token: Text, now: int)
    requires Typed(s) && p < |s.procs|
    requires var a := s.store.Admission(id, token, now);
             a.Claimed? ==> SinkOk(s.store.held[a.h]) && s.store.held[a.h].stream.None?
    ensures ProcOk(Admitted(s, p, id, token, now), p)
  {
  }

  lemma StartIngestKeepsHeld(s: State, step: Step, g: nat, unique: bool)
    requires Inv(s, unique) && Typed(s) && Enabled(s, step) && step.StartIngest? && g < |s.store.held|
    ensures HeldOk(Apply(s, step), g, unique) && (Apply(s, step).store.InMap(g) ==> s.store.InMap(g))
  {
    var s' := Apply(s, step);
    var a := s.store.Admission(step.id, step.token, step.now);
    assert HeldOk(s, g, unique);
    if a.Stale? && g == a.h {
      assert s'.procs[step.p].queue[0] == g && Owes(s'.procs[step.p], g);
      KeepsRunning(s, s', step.p, g);
    } else if a.Claimed? && g == a.h {
      assert StartingNow(s', g);
    } else {
      OthersKeep(s, s', step.p, g, unique);
    }
  }

  lemma CommitKeepsInv(s: State, step: Step, unique: bool)
    requires Inv(s, unique) && Typed(s) && Enabled(s, step) && step.Commit?
    ensures Inv(Apply(s, step), unique)
  {
    var s' := Apply(s, step);
    assert ProcOk(s, step.p);
    forall g | 0 <= g < |s.store.held| ensures HeldOk(s', g, unique) && (s'.store.InMap(g) ==> s.store.InMap(g)) {
      CommitKeepsHeld(s, step, g, unique);
    }
    CommitIsRemap(s, step);
    RemapKeepsInv(s, s', step.p, unique);
  }

  lemma CommitKeepsHeld(s: State, step: Step, g: nat, unique: bool)
    requires Inv(s, unique) && Typed(s) && Enabled(s, step) && step.Commit? && g < |s.store.held|
    ensures HeldOk(Apply(s, step), g, unique) && (Apply(s, step).store.InMap(g) ==> s.store.InMap(g))
  {
    var s' := Apply(s, step);
    var h, e := s.procs[step.p].h, s.procs[step.p].e;
    assert ProcOk(s, step.p) && HeldOk(s, g, unique);
    if g != h { OthersKeep(s, s', step.p, g, unique); }
    else if e.Some? { assert s'.procs[step.p].queue[0] == h && Owes(s'.procs[step.p], h); }
  }

  lemma CommitIsRemap(s: State, step: Step)
    requires Typed(s) && Enabled(s, step) && step.Commit? && ProcOk(s, step.p)
    ensures var s' := Apply(s, step);
            Remap(s, s', step.p) && ProcOk(s', step.p) && s'.store.Ok() && !s'.procs[step.p].Closing? && s'.mu.None? && !Starting(s'.procs[step.p])
  {
  }

  lemma CloseRemoveKeepsInv(s: State, step: Step, unique: bool)
    requires Inv(s, unique) && Typed(s) && Enabled(s, step) && step.CloseRemove?
    ensures Inv(Apply(s, step), unique)
  {
    var s' := Apply(s, step);
    var h := s.procs[step.p].h;
    assert ProcOk(s, step.p) && HeldOk(s, h, unique) && ClosingBy(s, step.p, h);
    forall g | 0 <= g < |s.store.held| ensures HeldOk(s', g, unique) && (s'.store.InMap(g) ==> s.store.InMap(g)) {
      assert HeldOk(s, g, unique);
      if g != h { OthersKeep(s, s', step.p, g, unique); }
    }
    RemapKeepsInv(s, s', step.p, unique);
  }

  lemma CancelKeepsInv(s: State, step: Step, unique: bool)
    requires Inv(s, unique) && Typed(s) && Enabled(s, step) && step.Cancel?
    ensures Inv(Apply(s, step), unique)
  {
    var s' := Apply(s, step);
    forall g | 0 <= g < |s.store.held| ensures HeldOk(s', g, unique) && (s'.store.InMap(g) ==> s.store.InMap(g)) {
      CancelKeepsHeld(s, step, g, unique);
    }
    CancelIsRemap(s, step);
    RemapKeepsInv(s, s', step.p, unique);
  }

  lemma CancelKeepsHeld(s: State, step: Step, g: nat, unique: bool)
    requires Inv(s, unique) && Typed(s) && Enabled(s, step) && step.Cancel? && g < |s.store.held|
    ensures HeldOk(Apply(s, step), g, unique) && (Apply(s, step).store.InMap(g) ==> s.store.InMap(g))
  {
    var s' := Apply(s, step);
    assert HeldOk(s, g, unique);
    if step.id in s.store.entries && g == s.store.entries[step.id] {
      assert s'.procs[step.p].queue[0] == g && Owes(s'.procs[step.p], g);
      KeepsRunning(s, s', step.p, g);
    } else { OthersKeep(s, s', step.p, g, unique); }
  }

  lemma CancelIsRemap(s: State, step: Step)
    requires Typed(s) && Enabled(s, step) && step.Cancel?
    ensures var s' := Apply(s, step);
            Remap(s, s', step.p) && ProcOk(s', step.p) && s'.store.Ok() && !s'.procs[step.p].Closing? && s'.mu.None? && !Starting(s'.procs[step.p])
  {
  }

  lemma KeepsRunning(s: State, s': State, p: nat, g: nat)
    requires p < |s.procs| == |s'.procs| && !s.procs[p].Closing?
    requires forall q :: 0 <= q < |s.procs| && q != p ==> s'.procs[q] == s.procs[q]
    ensures (exists q :: ClosingBy(s, q, g)) ==> exists q :: ClosingBy(s', q, g)
  {
    if q :| ClosingBy(s, q, g) { assert ClosingBy(s', q, g); }
  }

  lemma ExpireKeepsInv(s: State, step: Step, unique: bool)
    requires Inv(s, unique) && Typed(s) && Enabled(s, step) && step.Expire?
    ensures Inv(Apply(s, step), unique)
  {
    var s' := Apply(s, step);
    assert ProcOk(s, step.p);
    forall g | 0 <= g < |s.store.held| ensures HeldOk(s', g, unique) && (s'.store.InMap(g) ==> s.store.InMap(g)) {
      ExpireKeepsHeld(s, step, g, unique);
    }
    RemapKeepsInv(s, s', step.p, unique);
  }

  lemma ExpireKeepsHeld(s: State, step: Step, g: nat, unique: bool)
    requires Inv(s, unique) && Typed(s) && Enabled(s, step) && step.Expire? && g < |s.store.held|
    ensures HeldOk(Apply(s, step), g, unique) && (Apply(s, step).store.InMap(g) ==> s.store.InMap(g))
  {
    var s' := Apply(s, step);
    assert HeldOk(s, g, unique) && s.procs[step.p].Ready?;
    if s.store.IsExpired(step.now, g) {
      var i :| 0 <= i < |step.queue| && step.queue[i] == g;
      assert Owes(s'.procs[step.p], g);
      KeepsRunning(s, s', step.p, g);
    } else {
      OthersKeep(s, s', step.p, g, unique);
    }
  }

  /** Every step keeps the invariant. */
  lemma StepKeepsInv(s: State, step: Step, unique: bool)
    requires Inv(s, unique) && Typed(s) && Enabled(s, step) && (unique ==> Disciplined(s, step))
    ensures Inv(Apply(s, step), unique)
  {
    match step
    case Spawn => SpawnKeepsInv(s, unique);
    case Register(_, _, _, _, _) => RegisterKeepsInv(s, step, unique);
    case StartIngest(_, _, _, _) => StartIngestKeepsInv(s, step, unique);
    case Commit(_) => CommitKeepsInv(s, step, unique);
    case CloseRemove(_) => CloseRemoveKeepsInv(s, step, unique);
    case Cancel(_, _, _) => CancelKeepsInv(s, step, unique);
    case Expire(_, _, _) => ExpireKeepsInv(s, step, unique);
    case CtxDone(h) => CtxDoneKeepsInv(s, step, unique);
    case _ => LocalStepKeepsInv(s, step, unique);
  }

  lemma CtxDoneKeepsInv(s: State, step: Step, unique: bool)
    requires Inv(s, unique) && Typed(s) && Enabled(s, step) && step.CtxDone?
    ensures Inv(Apply(s, step), unique)
  {
    assert HeldOk(s, step.h, unique);
    if |s.procs| > 0 {
      assert ProcOk(s, 0);
      CtxDoneIsLocal(s, step);
      LocalKeepsInv(s, Apply(s, step), 0, step.h, unique);
    } else {
      forall g | 0 <= g < |s.store.held| ensures HeldOk(Apply(s, step), g, unique) { assert HeldOk(s, g, unique); }
    }
  }

  lemma LocalStepKeepsInv(s: State, step: Step, unique: bool)
    requires Inv(s, unique) && Typed(s) && Enabled(s, step)
    requires !step.Spawn? && !step.Register? && !step.StartIngest? && !step.Commit? && !step.CloseRemove?
    requires !step.Cancel? && !step.Expire? && !step.CtxDone?
    ensures Inv(Apply(s, step), unique)
  {
    var p := step.p;
    assert ProcOk(s, p);
    var h := if step.BeginWrite? || step.BeginClose? then step.h
             else if step.Poison? || step.Tell? then s.procs[p].queue[0] else s.procs[p].h;
    assert HeldOk(s, h, unique);
    if step.BeginWrite? || step.BeginClose? { BeginIsLocal(s, step); }
    else if step.Poison? { PoisonIsLocal(s, step); }
    else if step.Tell? { TellIsLocal(s, step); }
    else if step.Probe? || step.Lock? { StartIsLocal(s, step); }
    else if step.CloseMark? || step.CloseFinish? { CloseIsLocal(s, step); }
    else if step.WritePut? { PutIsLocal(s, step); }
    else if step.WriteProbe? || step.WriteLock? { WriteCheckIsLocal(s, step); }
    else { WriteReturnIsLocal(s, step); }
    LocalKeepsInv(s, Apply(s, step), p, h, unique);
  }
}
