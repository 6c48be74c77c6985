/** End-to-end delivery over whole runs. */
module DeliveryTheorems {
  import opened Octets
  import HR = HeldRequests
  import D = Delivery
  import opened Delivery
  import opened DeliveryProofs

  ghost predicate Runs(y: System, ms: seq<Move>)
    decreases |ms|
  {
    HR.Typed(y.reg) && (ms != [] ==> D.Enabled(y, ms[0]) && Coded(y, ms[0]) && Runs(D.Apply(y, ms[0]), ms[1..]))
  }

  ghost function After(y: System, ms: seq<Move>): (z: System)
    requires Runs(y, ms)
    ensures HR.Typed(z.reg)
    decreases |ms|
  {
    if ms == [] then y else After(D.Apply(y, ms[0]), ms[1..])
  }

  /** Every connection's frame is the encoding of its header. */
  ghost predicate Linked(y: System) {
    forall p <- y.conns :: Frames(y.conns[p].header, y.conns[p].frame, y.conns[p].valid)
  }

  lemma MoveKeepsLinked(y: System, m: Move)
    requires Linked(y) && HR.Typed(y.reg) && D.Enabled(y, m) && Coded(y, m)
    ensures Linked(D.Apply(y, m))
  {
    var y' := D.Apply(y, m);
    forall p | p in y'.conns ensures Frames(y'.conns[p].header, y'.conns[p].frame, y'.conns[p].valid) {
      if p in y.conns { SameLabels(y, m, p); }
    }
  }

  lemma SameLabels(y: System, m: Move, p: nat)
    requires HR.Typed(y.reg) && D.Enabled(y, m) && p in y.conns
    ensures var y' := D.Apply(y, m);
            && p in y'.conns && y'.conns[p].header == y.conns[p].header && y'.conns[p].frame == y.conns[p].frame
            && y'.conns[p].valid == y.conns[p].valid && y'.conns[p].body == y.conns[p].body
  {
  }

  // ----- a sink finished with nil was finished by a connection that delivered everything -----

  /** The connection has reached its successful close of request `h`. */
  predicate Done(s: ServerAt, h: nat) {
    ((s.InClose? && s.e.None?) || s.Acking? || s.Acked? || s.AckLost?) && s.h == h
  }

  ghost predicate FinishedBy(y: System, p: nat, h: nat) {
    p in y.conns && Done(y.conns[p].server, h)
  }

  ghost predicate NilIsEarned(y: System) {
    forall h :: 0 <= h < |y.reg.store.held| && y.reg.store.held[h].sink.completed && y.reg.store.held[h].sink.err.None? ==>
      exists p :: FinishedBy(y, p, h)
  }

  /** A step that completes a target with nil is CloseFinish of a close without error. */
  lemma NilComesFromClose(s: HR.State, step: HR.Step, h: nat)
    requires HR.Typed(s) && HR.Enabled(s, step) && h < |HR.Apply(s, step).store.held|
    requires var x := HR.Apply(s, step).store.held[h].sink; x.completed && x.err.None?
    ensures (h < |s.store.held| && s.store.held[h].sink.completed && s.store.held[h].sink.err.None?)
            || (step.CloseFinish? && s.procs[step.p].h == h && s.procs[step.p].e.None?)
  {
  }

  lemma DoneStays(y: System, m: Move, p: nat, h: nat)
    requires Inv(y) && HR.Typed(y.reg) && D.Enabled(y, m) && FinishedBy(y, p, h)
    requires h < |y.reg.store.held| && y.reg.store.held[h].sink.completed && y.reg.store.held[h].sink.err.None?
    ensures FinishedBy(D.Apply(y, m), p, h)
  {
    if m.ServerClosed? && m.p == p { ClosedStaysDone(y, m, h); } else { OtherMoveStaysDone(y, m, p, h); }
  }

  lemma ClosedStaysDone(y: System, m: Move, h: nat)
    requires Inv(y) && HR.Typed(y.reg) && D.Enabled(y, m) && m.ServerClosed? && FinishedBy(y, m.p, h)
    requires h < |y.reg.store.held| && y.reg.store.held[h].sink.completed && y.reg.store.held[h].sink.err.None?
    ensures FinishedBy(D.Apply(y, m), m.p, h)
  {
    assert ConnOk(y, m.p);
    assert CloseOk(y, m.p, y.conns[m.p]);
  }

  lemma OtherMoveStaysDone(y: System, m: Move, p: nat, h: nat)
    requires HR.Typed(y.reg) && D.Enabled(y, m) && FinishedBy(y, p, h) && !(m.ServerClosed? && m.p == p)
    ensures FinishedBy(D.Apply(y, m), p, h)
  {
  }

  lemma MoveKeepsNilIsEarned(y: System, m: Move)
    requires Inv(y) && NilIsEarned(y) && HR.Typed(y.reg) && D.Enabled(y, m)
    ensures NilIsEarned(D.Apply(y, m))
  {
    var y' := D.Apply(y, m);
    forall h | 0 <= h < |y'.reg.store.held| && y'.reg.store.held[h].sink.completed && y'.reg.store.held[h].sink.err.None?
      ensures exists p :: FinishedBy(y', p, h)
    {
      if h < |y.reg.store.held| && y.reg.store.held[h].sink.completed && y.reg.store.held[h].sink.err.None? {
        var p :| FinishedBy(y, p, h);
        DoneStays(y, m, p, h);
      } else {
        NilComesFromClose(y.reg, RegistryStep(y, m).value, h);
        NewNil(y, m, h);
      }
    }
  }

  lemma NewNil(y: System, m: Move, h: nat)
    requires Inv(y) && HR.Typed(y.reg) && D.Enabled(y, m) && m.Registry? && m.step.CloseFinish?
    requires y.reg.procs[m.step.p].h == h && y.reg.procs[m.step.p].e.None?
    ensures FinishedBy(D.Apply(y, m), m.step.p, h)
  {
    var p := m.step.p;
    assert p in y.conns;
    assert ConnOk(y, p);
    StageOfStep(y, m.step);
  }

  // ----- runs -----

  ghost predicate Good(y: System) {
    Inv(y) && Linked(y) && NilIsEarned(y)
  }

  lemma MoveKeepsGood(y: System, m: Move)
    requires Good(y) && HR.Typed(y.reg) && D.Enabled(y, m) && Coded(y, m)
    ensures Good(D.Apply(y, m))
  {
    MoveKeepsInv(y, m);
    MoveKeepsLinked(y, m);
    MoveKeepsNilIsEarned(y, m);
  }

  lemma {:induction false} RunKeepsGood(y: System, ms: seq<Move>)
    requires Good(y) && Runs(y, ms)
    ensures Good(After(y, ms))
    decreases |ms|
  {
    if ms != [] {
      MoveKeepsGood(y, ms[0]);
      RunKeepsGood(D.Apply(y, ms[0]), ms[1..]);
    }
  }

  lemma StartIsGood(maxHeaderBytes: int)
    ensures Good(Start(maxHeaderBytes)) && HR.Typed(Start(maxHeaderBytes).reg)
  {
  }

  /** The target of request `h` is finished with nil, and its waiting client was handed all that
      connection `c` undertook to deliver: the first L octets of the body, or all of it when L is unknown. */
  ghost predicate HasWholeBody(y: System, c: Conn, h: nat) {
    && h < |y.reg.store.held|
    && y.reg.store.held[h].id == c.header.requestId
    && Length(c) <= |c.body|
    && var x := y.reg.store.held[h].sink;
       && x.completed && x.err.None?
       && x.handed == if x.head then [] else if Length(c) >= 0 then c.body[..Length(c)] else c.body
  }

  /** The same with what the client of `c` has sent of its body, which for a declared length is all of that. */
  ghost predicate HasWhatWasSent(y: System, c: Conn, h: nat) {
    && h < |y.reg.store.held|
    && y.reg.store.held[h].id == c.header.requestId
    && c.sent <= |c.body| && (Length(c) >= 0 ==> c.sent == Length(c))
    && var x := y.reg.store.held[h].sink;
       && x.completed && x.err.None?
       && x.handed == if x.head then [] else c.body[..c.sent]
  }

  lemma DoneHasWhatWasSent(y: System, p: nat, h: nat)
    requires Good(y) && FinishedBy(y, p, h)
    requires h < |y.reg.store.held| && y.reg.store.held[h].sink.completed && y.reg.store.held[h].sink.err.None?
    ensures HasWhatWasSent(y, y.conns[p], h)
  {
    var c := y.conns[p];
    assert ConnOk(y, p) && Frames(c.header, c.frame, c.valid);
    if c.server.InClose? { assert CloseOk(y, p, c); }
    ValidKeepsId(c);
    HandedIsAllSent(y, c, h);
  }

  lemma ValidKeepsId(c: Conn)
    requires Frames(c.header, c.frame, c.valid) && c.frame.Ok?
    ensures c.valid.requestId == c.header.requestId
  {
  }

  lemma HandedIsAllSent(y: System, c: Conn, h: nat)
    requires c.sent <= |c.body| && HasGot(c.server) && c.server.hd.requestId == c.header.requestId
    requires AllSent(c, c.server.got) && Live(y, c.server.hd, h) && Handed(y, c, h, c.server.got)
    requires y.reg.store.held[h].sink.completed && y.reg.store.held[h].sink.err.None?
    ensures HasWhatWasSent(y, c, h)
  {
  }

  /** That is the whole body exactly when nothing of it was left to send. */
  lemma WholeWhenAllDeclared(y: System, c: Conn, h: nat)
    requires HasWhatWasSent(y, c, h)
    ensures HasWholeBody(y, c, h) <==> c.sent == Declared(c) || y.reg.store.held[h].sink.head
  {
    assert c.body[..|c.body|] == c.body;
  }

  /** End-to-end delivery: a Send that returned nil has had exactly its declared body handed over, in order,
      each octet once, and its target finished with nil. */
  lemma SendNilMeansDelivered(maxHeaderBytes: int, ms: seq<Move>, p: nat)
    requires Runs(Start(maxHeaderBytes), ms) && p in After(Start(maxHeaderBytes), ms).conns
    requires After(Start(maxHeaderBytes), ms).conns[p].client == Returned(None)
    ensures var y := After(Start(maxHeaderBytes), ms);
            var c := y.conns[p];
            c.server.Acked? && HasWholeBody(y, c, c.server.h)
  {
    StartIsGood(maxHeaderBytes);
    RunKeepsGood(Start(maxHeaderBytes), ms);
    NilHasWholeBody(After(Start(maxHeaderBytes), ms), p);
  }

  lemma NilHasWholeBody(y: System, p: nat)
    requires Good(y) && p in y.conns && y.conns[p].client == Returned(None)
    ensures y.conns[p].server.Acked? && HasWholeBody(y, y.conns[p], y.conns[p].server.h)
  {
    assert ConnOk(y, p) && y.conns[p].server.Acked?;
    assert ServerOk(y, p, y.conns[p]);
    DoneHasWhatWasSent(y, p, y.conns[p].server.h);
    WholeWhenAllDeclared(y, y.conns[p], y.conns[p].server.h);
  }

  /** The other end: a target whose waiter is released with nil was closed by one connection only, and what was handed
      over is exactly what the client of that connection had sent; for a declared length that is the whole body. */
  lemma WaitNilMeansDelivered(maxHeaderBytes: int, ms: seq<Move>, h: nat)
    requires Runs(Start(maxHeaderBytes), ms) && h < |After(Start(maxHeaderBytes), ms).reg.store.held|
    requires var x := After(Start(maxHeaderBytes), ms).reg.store.held[h].sink; x.completed && x.err.None?
    ensures var y := After(Start(maxHeaderBytes), ms);
            && (exists p :: FinishedBy(y, p, h))
            && (forall p, q :: FinishedBy(y, p, h) && FinishedBy(y, q, h) ==> p == q)
            && (forall p :: FinishedBy(y, p, h) ==>
                  HasWhatWasSent(y, y.conns[p], h) && (Length(y.conns[p]) >= 0 ==> HasWholeBody(y, y.conns[p], h)))
  {
    var y := After(Start(maxHeaderBytes), ms);
    StartIsGood(maxHeaderBytes);
    RunKeepsGood(Start(maxHeaderBytes), ms);
    forall p | FinishedBy(y, p, h)
      ensures HasWhatWasSent(y, y.conns[p], h) && (Length(y.conns[p]) >= 0 ==> HasWholeBody(y, y.conns[p], h))
    {
      DoneHasWhatWasSent(y, p, h);
      WholeWhenAllDeclared(y, y.conns[p], h);
    }
    OneFinisher(y, h);
  }

  lemma OneFinisher(y: System, h: nat)
    requires Inv(y)
    ensures forall p, q :: FinishedBy(y, p, h) && FinishedBy(y, q, h) ==> p == q
  {
    forall p, q | FinishedBy(y, p, h) && FinishedBy(y, q, h) ensures p == q {
      assert ConnOk(y, p) && ConnOk(y, q);
      assert Owner(y, p) == Some(h) && Owner(y, q) == Some(h);
    }
  }
}
