/** What every step of the upload-source registry keeps, whatever ids are reused. */
module UploadInvariants {
  import opened Octets
  import opened UploadSources

  predicate Owes(c: Call, h: nat) {
    c.Terminating? && h in c.queue
  }

  /** Some running call still has to terminate source `h`. */
  ghost predicate Owed(s: State, h: nat) {
    exists p :: 0 <= p < |s.procs| && Owes(s.procs[p], h)
  }

  /** The call inside the once of `h`. */
  predicate Runs(c: Call, h: nat) {
    c.Terminating? && c.queue != [] && c.queue[0] == h && !c.at.Entering?
  }

  ghost predicate RunBy(s: State, p: nat, h: nat) {
    p < |s.procs| && Runs(s.procs[p], h)
  }

  /** What has been done to a source whose once is not being run. */
  predicate Settled(x: Source, gone: bool) {
    && x.claims <= 1
    && (x.once.Idle? ==> x.doneCloses == 0 && x.bodyCloses == 0 && x.cancels == 0 && x.terminalErr.None?)
    && (x.once.Finished? ==> x.doneCloses == 1 && x.bodyCloses == 1 && x.cancels <= 1 && gone)
  }

  /** And to one whose once is at `at`. */
  predicate Midway(x: Source, at: At, gone: bool) {
    && x.once.Running? && x.bodyCloses == 0 && x.cancels == 0
    && x.doneCloses == (if at.Closing? then 1 else 0)
    && (at.Signalling? || at.Closing? ==> gone)
  }

  ghost predicate HeldOk(s: State, h: nat)
    requires h < |s.store.held|
  {
    var x := s.store.held[h];
    && Settled(x, !s.store.InMap(h))
    && (x.once.Running? ==> exists p :: RunBy(s, p, h))
    && (s.store.InMap(h) || x.once.Finished? || Owed(s, h))
  }

  ghost predicate ProcOk(s: State, p: nat)
    requires p < |s.procs|
  {
    var c := s.procs[p];
    c.Terminating? ==>
      && c.queue != [] && (forall i :: 0 <= i < |c.queue| ==> c.queue[i] < |s.store.held|)
      && (c.caller.ByClose? || forall i :: 0 <= i < |c.queue| ==> !s.store.InMap(c.queue[i]))
      && (!c.at.Entering? ==> Midway(s.store.held[c.queue[0]], c.at, !s.store.InMap(c.queue[0])))
  }

  ghost predicate Inv(s: State) {
    && s.store.Ok()
    && (forall h :: 0 <= h < |s.store.held| ==> HeldOk(s, h))
    && (forall p :: 0 <= p < |s.procs| ==> ProcOk(s, p))
    && (forall p, q, h: nat :: RunBy(s, p, h) && RunBy(s, q, h) ==> p == q)
  }

  // ----- steps -----

  /** Goroutine `p` moves, source `h` changes, sources may leave the map. */
  ghost predicate Local(s: State, s': State, p: nat, h: nat) {
    && p < |s.procs| == |s'.procs| && |s.store.held| == |s'.store.held|
    && (forall q :: 0 <= q < |s.procs| && q != p ==> s'.procs[q] == s.procs[q])
    && (forall g :: 0 <= g < |s.store.held| && g != h ==> s'.store.held[g] == s.store.held[g])
    && s'.store.entries.Keys <= s.store.entries.Keys
    && (forall id <- s'.store.entries :: s'.store.entries[id] == s.store.entries[id])
    && (h < |s.store.held| ==> s'.store.held[h].id == s.store.held[h].id)
  }

  lemma GoneStays(s: State, s': State, p: nat, h: nat)
    requires Local(s, s', p, h)
    ensures forall g: nat :: s'.store.InMap(g) ==> s.store.InMap(g)
  {
  }

  /** What the moving goroutine and the changed source must satisfy. */
  ghost predicate Moved(s: State, s': State, p: nat, h: nat)
    requires Local(s, s', p, h)
  {
    var c, c' := s.procs[p], s'.procs[p];
    && ProcOk(s', p)
    && (h < |s.store.held| ==>
          var x, x' := s.store.held[h], s'.store.held[h];
          && Settled(x', !s'.store.InMap(h))
          && (x.once != x'.once || x.doneCloses != x'.doneCloses || x.bodyCloses != x'.bodyCloses || x.cancels != x'.cancels
              ==> Runs(c, h) || Runs(c', h))
          && (x.once.Finished? ==> x'.once.Finished?)
          && (x'.once.Running? ==> x.once.Running? || Runs(c', h)))
    && (forall g: nat :: Runs(c', g) ==> Runs(c, g) || (g == h && h < |s.store.held| && s.store.held[h].once.Idle?))
    && (forall g: nat :: Runs(c, g) ==> Runs(c', g) || (g == h && h < |s.store.held| && s'.store.held[h].once.Finished?))
    && (forall g: nat :: Owes(c, g) ==> Owes(c', g) || (g < |s.store.held| && s'.store.held[g].once.Finished?))
    && (forall g: nat :: s.store.InMap(g) && !s'.store.InMap(g) ==> Owes(c', g))
  }

  lemma OtherProcs(s: State, s': State, p: nat, h: nat, q: nat)
    requires Inv(s) && Local(s, s', p, h) && Moved(s, s', p, h) && q < |s.procs| && q != p
    ensures ProcOk(s', q)
  {
    assert ProcOk(s, q);
    GoneStays(s, s', p, h);
    var c := s.procs[q];
    if c.Terminating? && !c.at.Entering? && c.queue[0] == h {
      assert RunBy(s, q, h);
      assert Runs(s.procs[p], h) ==> RunBy(s, p, h);
    }
  }

  lemma OtherHeld(s: State, s': State, p: nat, h: nat, g: nat)
    requires Inv(s) && Local(s, s', p, h) && Moved(s, s', p, h) && g < |s.store.held|
    ensures HeldOk(s', g)
  {
    assert HeldOk(s, g);
    GoneStays(s, s', p, h);
    var x, x' := s.store.held[g], s'.store.held[g];
    if x'.once.Running? {
      if Runs(s'.procs[p], g) {
        assert RunBy(s', p, g);
      } else {
        assert x.once.Running?;
        var q :| RunBy(s, q, g);
        assert q != p;
        assert RunBy(s', q, g);
      }
    }
    if !s'.store.InMap(g) && !x'.once.Finished? {
      if s.store.InMap(g) {
        assert Owes(s'.procs[p], g);
      } else {
        var q :| 0 <= q < |s.procs| && Owes(s.procs[q], g);
        assert Owes(s'.procs[q], g);
      }
    }
  }

  lemma LocalKeepsInv(s: State, s': State, p: nat, h: nat)
    requires Inv(s) && s'.store.Ok() && Local(s, s', p, h) && Moved(s, s', p, h)
    ensures Inv(s')
  {
    forall q | 0 <= q < |s'.procs| ensures ProcOk(s', q) {
      if q != p { OtherProcs(s, s', p, h, q); }
    }
    forall g | 0 <= g < |s'.store.held| ensures HeldOk(s', g) {
      OtherHeld(s, s', p, h, g);
    }
    forall q, r, g: nat | RunBy(s', q, g) && RunBy(s', r, g) ensures q == r {
      OnlyRunner(s, s', p, h, q, r, g);
    }
  }

  lemma OnlyRunner(s: State, s': State, p: nat, h: nat, q: nat, r: nat, g: nat)
    requires Inv(s) && Local(s, s', p, h) && Moved(s, s', p, h) && RunBy(s', q, g) && RunBy(s', r, g)
    ensures q == r
  {
    if q != r {
      var other := if q == p then r else q;
      assert RunBy(s, other, g) && ProcOk(s, other);
      if q == p || r == p {
        assert Runs(s'.procs[p], g);
        assert RunBy(s, p, g);
      } else {
        assert RunBy(s, q, g) && RunBy(s, r, g);
      }
    }
  }

  ghost predicate IsLocal(s: State, s': State, p: nat, h: nat) {
    s'.store.Ok() && Local(s, s', p, h) && Moved(s, s', p, h)
  }

  lemma StaleClaimIsLocal(s: State, p: nat, id: Text, token: Text, now: int)
    requires s.store.Ok() && Free(s, p) && s.store.Admission(id, token, now).Stale?
    requires Settled(s.store.held[s.store.entries[id]], false)
    ensures IsLocal(s, Apply(s, Claim(p, id, token, now)), p, s.store.entries[id])
  {
  }

  lemma GrantedClaimIsLocal(s: State, p: nat, id: Text, token: Text, now: int)
    requires s.store.Ok() && Free(s, p) && s.store.Admission(id, token, now).Granted?
    requires Settled(s.store.held[s.store.entries[id]], false)
    ensures IsLocal(s, Apply(s, Claim(p, id, token, now)), p, s.store.entries[id])
  {
    var s' := Apply(s, Claim(p, id, token, now));
    assert forall g: nat :: s'.store.InMap(g) == s.store.InMap(g);
  }

  lemma BeginCloseIsLocal(s: State, p: nat, h: nat, e: Option<Failure>)
    requires s.store.Ok() && Enabled(s, BeginClose(p, h, e)) && Settled(s.store.held[h], !s.store.InMap(h))
    ensures IsLocal(s, Apply(s, BeginClose(p, h, e)), p, h)
  {
  }

  lemma DetachIsLocal(s: State, p: nat, id: Text, why: Failure)
    requires s.store.Ok() && Free(s, p) && id in s.store.entries
    requires Settled(s.store.held[s.store.entries[id]], false)
    ensures IsLocal(s, Detach(s, p, id, why), p, s.store.entries[id])
  {
  }

  /** A call that finds nothing to do. */
  lemma AnswerIsLocal(s: State, p: nat, a: Answer)
    requires s.store.Ok() && Free(s, p)
    ensures IsLocal(s, s.To(p, Ready(a)), p, |s.store.held|)
  {
  }

  lemma DetachKeepsInv(s: State, p: nat, id: Text, why: Failure)
    requires Inv(s) && Free(s, p)
    ensures Inv(Detach(s, p, id, why))
  {
    if id in s.store.entries {
      assert HeldOk(s, s.store.entries[id]);
      DetachIsLocal(s, p, id, why);
      LocalKeepsInv(s, Detach(s, p, id, why), p, s.store.entries[id]);
    } else {
      AnswerIsLocal(s, p, CancelAnswer(false));
      LocalKeepsInv(s, Detach(s, p, id, why), p, |s.store.held|);
    }
  }

  lemma ClaimKeepsInv(s: State, p: nat, id: Text, token: Text, now: int)
    requires Inv(s) && Free(s, p)
    ensures Inv(Apply(s, Claim(p, id, token, now)))
  {
    var s' := Apply(s, Claim(p, id, token, now));
    match s.store.Admission(id, token, now)
    case Stale(h) =>
      assert HeldOk(s, h);
      StaleClaimIsLocal(s, p, id, token, now);
      LocalKeepsInv(s, s', p, h);
    case Granted(h) =>
      assert HeldOk(s, h);
      GrantedClaimIsLocal(s, p, id, token, now);
      LocalKeepsInv(s, s', p, h);
    case Missing =>
      AnswerIsLocal(s, p, Failed(NotFound));
      LocalKeepsInv(s, s', p, |s.store.held|);
    case Refused(e) =>
      AnswerIsLocal(s, p, Failed(e));
      LocalKeepsInv(s, s', p, |s.store.held|);
  }

  lemma BeginCloseKeepsInv(s: State, p: nat, h: nat, e: Option<Failure>)
    requires Inv(s) && Enabled(s, BeginClose(p, h, e))
    ensures Inv(Apply(s, BeginClose(p, h, e)))
  {
    assert HeldOk(s, h);
    BeginCloseIsLocal(s, p, h, e);
    LocalKeepsInv(s, Apply(s, BeginClose(p, h, e)), p, h);
  }

  lemma ExpireOk(st: Store, now: int)
    requires st.Ok()
    ensures st.Expire(now).Ok()
    ensures forall h: nat :: st.Expire(now).InMap(h) <==> st.InMap(h) && !st.IsExpired(now, h)
  {
  }

  lemma ExpireIsLocal(s: State, p: nat, now: int, queue: seq<nat>)
    requires s.store.Ok() && Enabled(s, Expire(p, now, queue)) && queue != []
    ensures IsLocal(s, Apply(s, Expire(p, now, queue)), p, |s.store.held|)
  {
    ExpireOk(s.store, now);
  }

  lemma ExpireKeepsInv(s: State, p: nat, now: int, queue: seq<nat>)
    requires Inv(s) && Enabled(s, Expire(p, now, queue))
    ensures Inv(Apply(s, Expire(p, now, queue)))
  {
    if queue == [] {
      AnswerIsLocal(s, p, ExpireAnswer(0));
    } else {
      ExpireIsLocal(s, p, now, queue);
    }
    LocalKeepsInv(s, Apply(s, Expire(p, now, queue)), p, |s.store.held|);
  }

  /** Notes about the context and the watcher touch nothing else. */
  lemma NoteKeepsInv(s: State, h: nat, x: Source)
    requires Inv(s) && h < |s.store.held| && x == s.store.held[h].(watch := x.watch, ctxDone := x.ctxDone)
    ensures Inv(s.With(s.store.Set(h, x)))
  {
    var s' := s.With(s.store.Set(h, x));
    assert forall g: nat :: s'.store.InMap(g) == s.store.InMap(g);
    forall g | 0 <= g < |s'.store.held| ensures HeldOk(s', g) {
      assert HeldOk(s, g);
      if s.store.held[g].once.Running? { var p :| RunBy(s, p, g); assert RunBy(s', p, g); }
      if Owed(s, g) { var p :| 0 <= p < |s.procs| && Owes(s.procs[p], g); assert Owes(s'.procs[p], g); }
    }
    forall p | 0 <= p < |s'.procs| ensures ProcOk(s', p) { assert ProcOk(s, p); }
    forall p, q, g: nat | RunBy(s', p, g) && RunBy(s', q, g) ensures p == q {
      assert RunBy(s, p, g) && RunBy(s, q, g);
    }
  }

  /** A call with one source fewer in its queue owes the others. */
  lemma NextOwes(c: Call, terminated: bool)
    requires c.Terminating? && c.queue != []
    ensures forall g: nat :: Owes(c, g) ==> g == c.queue[0] || Owes(Next(c, terminated), g)
    ensures forall g: nat :: !Runs(Next(c, terminated), g)
  {
  }

  lemma EnterIsLocal(s: State, p: nat)
    requires s.store.Ok() && Enabled(s, Enter(p)) && ProcOk(s, p)
    requires var h := s.procs[p].queue[0]; Settled(s.store.held[h], !s.store.InMap(h))
    ensures IsLocal(s, Apply(s, Enter(p)), p, s.procs[p].queue[0])
  {
    NextOwes(s.procs[p], false);
    var s' := Apply(s, Enter(p));
    assert forall g: nat :: s'.store.InMap(g) == s.store.InMap(g);
  }

  lemma RemoveIsLocal(s: State, p: nat)
    requires s.store.Ok() && Enabled(s, Remove(p)) && ProcOk(s, p)
    requires var h := s.procs[p].queue[0]; Settled(s.store.held[h], !s.store.InMap(h))
    ensures IsLocal(s, Apply(s, Remove(p)), p, s.procs[p].queue[0])
  {
  }

  lemma SignalIsLocal(s: State, p: nat)
    requires s.store.Ok() && Enabled(s, Signal(p)) && ProcOk(s, p)
    requires var h := s.procs[p].queue[0]; Settled(s.store.held[h], !s.store.InMap(h))
    ensures IsLocal(s, Apply(s, Signal(p)), p, s.procs[p].queue[0])
  {
    var s' := Apply(s, Signal(p));
    assert forall g: nat :: s'.store.InMap(g) == s.store.InMap(g);
  }

  lemma CloseBodyIsLocal(s: State, p: nat)
    requires s.store.Ok() && Enabled(s, CloseBody(p)) && ProcOk(s, p)
    requires var h := s.procs[p].queue[0]; Settled(s.store.held[h], !s.store.InMap(h))
    ensures IsLocal(s, Apply(s, CloseBody(p)), p, s.procs[p].queue[0])
  {
    NextOwes(s.procs[p], true);
    var s' := Apply(s, CloseBody(p));
    assert forall g: nat :: s'.store.InMap(g) == s.store.InMap(g);
  }

  lemma OnceKeepsInv(s: State, step: Step)
    requires Inv(s) && Enabled(s, step) && (step.Enter? || step.Remove? || step.Signal? || step.CloseBody?)
    ensures Inv(Apply(s, step))
  {
    var p := step.p;
    var h := s.procs[p].queue[0];
    assert HeldOk(s, h) && ProcOk(s, p);
    match step {
      case Enter(_) => EnterIsLocal(s, p);
      case Remove(_) => RemoveIsLocal(s, p);
      case Signal(_) => SignalIsLocal(s, p);
      case CloseBody(_) => CloseBodyIsLocal(s, p);
    }
    LocalKeepsInv(s, Apply(s, step), p, h);
  }

  lemma RegisterKeepsInv(s: State, id: Text, token: Text, deadline: int, watched: bool)
    requires Inv(s) && id !in s.store.entries
    ensures Inv(s.With(s.store.Register(id, token, deadline, watched)))
  {
    var s' := s.With(s.store.Register(id, token, deadline, watched));
    assert forall g: nat | g < |s.store.held| :: s'.store.InMap(g) == s.store.InMap(g);
    forall g | 0 <= g < |s'.store.held| ensures HeldOk(s', g) {
      if g < |s.store.held| {
        assert HeldOk(s, g);
        if s.store.held[g].once.Running? { var p :| RunBy(s, p, g); assert RunBy(s', p, g); }
        if Owed(s, g) { var p :| 0 <= p < |s.procs| && Owes(s.procs[p], g); assert Owes(s'.procs[p], g); }
      }
    }
    forall p | 0 <= p < |s'.procs| ensures ProcOk(s', p) { assert ProcOk(s, p); }
    forall p, q, g: nat | RunBy(s', p, g) && RunBy(s', q, g) ensures p == q {
      assert RunBy(s, p, g) && RunBy(s, q, g);
    }
  }

  lemma SpawnKeepsInv(s: State)
    requires Inv(s)
    ensures Inv(Apply(s, Spawn))
  {
    var s' := Apply(s, Spawn);
    forall g | 0 <= g < |s'.store.held| ensures HeldOk(s', g) {
      assert HeldOk(s, g);
      if s.store.held[g].once.Running? { var p :| RunBy(s, p, g); assert RunBy(s', p, g); }
      if Owed(s, g) { var p :| 0 <= p < |s.procs| && Owes(s.procs[p], g); assert Owes(s'.procs[p], g); }
    }
    forall p | 0 <= p < |s'.procs| ensures ProcOk(s', p) { if p < |s.procs| { assert ProcOk(s, p); } }
    forall p, q, g: nat | RunBy(s', p, g) && RunBy(s', q, g) ensures p == q {
      assert RunBy(s, p, g) && RunBy(s, q, g);
    }
  }

  /** Every step keeps the invariant, even when ids are used again. */
  lemma StepKeepsInv(s: State, step: Step)
    requires Inv(s) && Enabled(s, step)
    ensures Inv(Apply(s, step))
  {
    match step
    case Spawn => SpawnKeepsInv(s);
    case Register(id, token, deadline, watched, _) => RegisterKeepsInv(s, id, token, deadline, watched);
    case Claim(p, id, token, now) => ClaimKeepsInv(s, p, id, token, now);
    case BeginClose(p, h, e) => BeginCloseKeepsInv(s, p, h, e);
    case Cancel(p, id, why) => DetachKeepsInv(s, p, id, if why.Some? then why.value else Canceled);
    case Expire(p, now, queue) => ExpireKeepsInv(s, p, now, queue);
    case CtxDone(h) => NoteKeepsInv(s, h, s.store.held[h].(ctxDone := true));
    case WatchEnds(h) => NoteKeepsInv(s, h, s.store.held[h].(watch := Returned));
    case WatchFires(p, h) =>
      NoteKeepsInv(s, h, s.store.held[h].(watch := Returned));
      DetachKeepsInv(s.With(s.store.Set(h, s.store.held[h].(watch := Returned))), p, s.store.held[h].id, ContextDone);
    case _ => OnceKeepsInv(s, step);
  }
}
