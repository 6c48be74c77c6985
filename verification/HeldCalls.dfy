/** Whole calls of the registry and of a stream, and the fact that each is an uninterrupted run of the
    step relation.  The classes of PendingRegistry.dfy are proved against these functions. */
module HeldCalls {
  import opened Octets
  import opened HeldRequests
  import HI = HeldInvariants
  import opened HeldTheorems

  /** target.Start. */
  function StartSink(x: Sink): (Sink, Option<Failure>) {
    var y := x.(starts := x.starts + 1);
    if x.ctx.Some? then (y, x.ctx) else (y.Start(), y.StartError())
  }

  function StartCall(st: Store, id: Text, token: Text, now: int): (Store, Result<nat, Failure>)
    requires st.Ok()
  {
    match st.Admission(id, token, now)
    case Missing => (st, Err(NotFound))
    case Stale(h, e) => (st.Drop(id).Complete(h, Some(e)), Err(e))
    case Refused(e) => (st, Err(e))
    case Claimed(h) =>
      var (sink, e) := StartSink(st.held[h].sink);
      var st' := st.Set(h, st.held[h].(claimed := true, sink := sink)).Commit(h, e);
      if e.Some? then (st'.Complete(h, e), Err(e.value)) else (st', Ok(h))
  }

  function CancelCall(st: Store, id: Text, why: Option<Failure>): (Store, bool)
    requires st.Ok()
  {
    if id !in st.entries then (st, false)
    else
      var h, e := st.entries[id], CancelReason(why);
      (st.Detach(id, e).Poison(h, e).Complete(h, Some(e)), true)
  }

  /** Poison and tell every listed request. */
  function NotifyAll(st: Store, queue: seq<nat>, e: Failure): (r: Store)
    requires forall i :: 0 <= i < |queue| ==> queue[i] < |st.held|
    ensures |r.held| == |st.held| && r.entries == st.entries
    decreases |queue|
  {
    if queue == [] then st else NotifyAll(st.Poison(queue[0], e).Complete(queue[0], Some(e)), queue[1..], e)
  }

  function CloseCall(st: Store, h: nat, e: Option<Failure>): (Store, Option<Failure>)
    requires h < |st.held| && st.held[h].stream.Some?
  {
    var s := st.held[h].stream.value;
    if s.once.Finished? then (st, None)
    else
      var st' := st.SetStream(h, s.(done := true)).Complete(h, e);
      (st'.Drop(st.held[h].id).SetStream(h, s.(done := true, once := Finished)), st'.held[h].sink.err)
  }

  /** What a Write of the response writer side hands over, counts and answers; `n`, `fails` and `flushFails`
      are the http.ResponseWriter's doing. */
  function SinkWrite(sink: Sink, p: Text, n: nat, fails: bool, flushFails: bool): (Text, nat, Option<Failure>)
    requires n <= |p|
  {
    if sink.ctx.Some? then ([], 0, sink.ctx)
    else if sink.completed then ([], 0, Some(sink.CompletionError()))
    else if sink.head then ([], |p|, None)
    else if fails || (flushFails && n > 0) then (p[..n], n, Some(WriterFailed))
    else (p[..n], n, None)
  }

  /** IngestStream.Write. */
  function WriteCall(stream: Stream, sink: Sink, p: Text, n: nat, fails: bool, flushFails: bool): (Text, nat, Option<Failure>)
    requires n <= |p|
  {
    if stream.Refusal().Some? then ([], 0, stream.Refusal()) else SinkWrite(sink, p, n, fails, flushFails)
  }

  // ----- what the calls do to the one request they are about -----

  /** Cancelled with `e`: the entry is marked, the stream poisoned, the target told. */
  function Cancelled(x: Held, e: Failure): Held {
    x.(err := Some(e), stream := if x.stream.Some? then Some(x.stream.value.Poison(e)) else None, sink := x.sink.Complete(Some(e)))
  }

  /** Stream poisoned and target told, the entry itself already marked. */
  function Told(x: Held, e: Failure): Held {
    x.(stream := if x.stream.Some? then Some(x.stream.value.Poison(e)) else None, sink := x.sink.Complete(Some(e)))
  }

  /** Claimed, with the outcome of target.Start. */
  function Started(x: Held): (Held, Option<Failure>) {
    var (sink, e) := StartSink(x.sink);
    (if e.Some? then x.(claimed := true, sink := sink.Complete(e)) else x.(claimed := true, sink := sink, stream := Some(NewStream)), e)
  }

  // ----- the map stays an index into the requests -----

  lemma DropSetOk(st: Store, id: Text, h: nat, x: Held)
    requires st.Ok() && h < |st.held| && x.id == st.held[h].id
    ensures st.Drop(id).Set(h, x).Ok() && st.Set(h, x).Ok() && st.Drop(id).Ok()
  {
  }

  lemma RegisterOk(st: Store, id: Text, token: Text, deadline: int, head: bool)
    requires st.Ok()
    ensures st.Register(id, token, deadline, head).Ok()
  {
  }

  /** `st'` is a store that differs from `st` in request `h` and the map only. */
  ghost predicate Differs(st: Store, st': Store, h: nat) {
    st'.Ok() && |st'.held| == |st.held| && forall j :: 0 <= j < |st.held| && j != h ==> st'.held[j] == st.held[j]
  }

  lemma PutOk(st: Store, h: nat, p: Text)
    requires st.Ok() && h < |st.held|
    ensures Differs(st, st.Put(h, p), h)
  {
    DropSetOk(st, [], h, st.Put(h, p).held[h]);
  }

  lemma CloseOk(st: Store, h: nat, e: Option<Failure>)
    requires st.Ok() && h < |st.held| && st.held[h].stream.Some?
    ensures Differs(st, CloseCall(st, h, e).0, h)
  {
    DropSetOk(st, st.held[h].id, h, CloseCall(st, h, e).0.held[h]);
  }

  lemma CancelOk(st: Store, id: Text, why: Option<Failure>)
    requires st.Ok() && id in st.entries
    ensures var (r, h) := (CancelCall(st, id, why).0, st.entries[id]);
            Differs(st, r, h) && r.entries == st.entries - {id} && r.held[h] == Cancelled(st.held[h], CancelReason(why))
  {
    DropSetOk(st, id, st.entries[id], CancelCall(st, id, why).0.held[st.entries[id]]);
  }

  lemma StartOk(st: Store, id: Text, token: Text, now: int)
    requires st.Ok()
    ensures var (r, answer) := StartCall(st, id, token, now);
            match st.Admission(id, token, now)
            case Stale(h, e) =>
              Differs(st, r, h) && r.held[h] == st.held[h].(sink := st.held[h].sink.Complete(Some(e))) && r.entries == st.entries - {id}
            case Claimed(h) =>
              var (x, e) := Started(st.held[h]);
              && Differs(st, r, h) && r.held[h] == x
              && r.entries == (if e.Some? then st.entries - {id} else st.entries)
              && answer == if e.Some? then Err(e.value) else Ok(h)
            case _ => r == st
  {
    if id in st.entries {
      DropSetOk(st, id, st.entries[id], StartCall(st, id, token, now).0.held[st.entries[id]]);
    }
  }

  lemma TellOk(st: Store, h: nat, e: Failure)
    requires st.Ok() && h < |st.held|
    ensures var r := st.Poison(h, e).Complete(h, Some(e));
            Differs(st, r, h) && r.held[h] == Told(st.held[h], e) && r.entries == st.entries
  {
    DropSetOk(st, [], h, Told(st.held[h], e));
  }

  lemma ExpireOk(st: Store, now: int)
    requires st.Ok()
    ensures st.Expire(now).Ok()
  {
  }

  /** Expired, and its id no longer among those still to be looked at. */
  predicate Taken(st: Store, now: int, todo: set<Text>, h: nat) {
    st.IsExpired(now, h) && st.held[h].id !in todo
  }

  /** The store in the middle of Expire's first loop, with the ids `todo` still to be looked at. */
  function Swept(st: Store, now: int, todo: set<Text>): Store
    requires st.Ok()
  {
    Store(map id | id in st.entries && (id in todo || st.held[st.entries[id]].deadline > now) :: st.entries[id],
          seq(|st.held|, h requires 0 <= h < |st.held| =>
            if Taken(st, now, todo, h) then st.held[h].(err := Some(Failure.Expired)) else st.held[h]))
  }

  /** `queue` lists what that loop has taken out, each once. */
  ghost predicate ListsTaken(st: Store, now: int, todo: set<Text>, queue: seq<nat>) {
    && (forall i :: 0 <= i < |queue| ==> Taken(st, now, todo, queue[i]))
    && (forall i, j :: 0 <= i < j < |queue| ==> queue[i] != queue[j])
    && (forall h: nat :: Taken(st, now, todo, h) ==> h in queue)
  }

  lemma SweepStart(st: Store, now: int)
    requires st.Ok()
    ensures Swept(st, now, st.entries.Keys) == st && ListsTaken(st, now, st.entries.Keys, [])
  {
    assert Swept(st, now, st.entries.Keys).held == st.held;
  }

  lemma SweepKeeps(st: Store, now: int, todo: set<Text>, id: Text)
    requires st.Ok() && id in todo && id in st.entries && st.held[st.entries[id]].deadline > now
    ensures Swept(st, now, todo - {id}) == Swept(st, now, todo)
    ensures forall queue :: ListsTaken(st, now, todo, queue) ==> ListsTaken(st, now, todo - {id}, queue)
  {
    forall h: nat ensures Taken(st, now, todo - {id}, h) <==> Taken(st, now, todo, h) {
    }
    assert Swept(st, now, todo - {id}).held == Swept(st, now, todo).held;
  }

  lemma SweepTakes(st: Store, now: int, todo: set<Text>, id: Text)
    requires st.Ok() && id in todo && id in st.entries && st.held[st.entries[id]].deadline <= now
    ensures Swept(st, now, todo).Ok() && id in Swept(st, now, todo).entries
    ensures Swept(st, now, todo - {id}) == Swept(st, now, todo).Detach(id, Failure.Expired)
  {
    var cur, cur' := Swept(st, now, todo), Swept(st, now, todo - {id});
    var h := st.entries[id];
    forall g | 0 <= g < |st.held| ensures cur'.held[g] == if g == h then cur.held[g].(err := Some(Failure.Expired)) else cur.held[g] {
      assert Taken(st, now, todo - {id}, g) <==> g == h || Taken(st, now, todo, g);
    }
    assert cur'.held == cur.Detach(id, Failure.Expired).held;
    assert cur'.entries == cur.entries - {id};
  }

  lemma SweepLists(st: Store, now: int, todo: set<Text>, queue: seq<nat>, id: Text)
    requires st.Ok() && ListsTaken(st, now, todo, queue)
    requires id in todo && id in st.entries && st.held[st.entries[id]].deadline <= now
    ensures ListsTaken(st, now, todo - {id}, queue + [st.entries[id]])
  {
    var h := st.entries[id];
    forall g: nat | Taken(st, now, todo - {id}, g) ensures g in queue + [h] {
      assert g == h || Taken(st, now, todo, g);
    }
    assert !Taken(st, now, todo, h);
  }

  /** One round of the loop. */
  function SweptOne(cur: Store, now: int, id: Text): Store
    requires cur.Ok() && id in cur.entries
  {
    if cur.held[cur.entries[id]].deadline <= now then cur.Detach(id, Failure.Expired) else cur
  }

  /** What leaves the map joins the list. */
  function ListedOne(cur: Store, now: int, id: Text, queue: seq<nat>): seq<nat>
    requires cur.Ok() && id in cur.entries
  {
    if cur.held[cur.entries[id]].deadline <= now then queue + [cur.entries[id]] else queue
  }

  lemma SweepRound(st: Store, cur: Store, now: int, todo: set<Text>, queue: seq<nat>, id: Text)
    requires st.Ok() && ListsTaken(st, now, todo, queue) && id in todo && id in st.entries && cur == Swept(st, now, todo)
    ensures cur.Ok() && id in cur.entries
    ensures SweptOne(cur, now, id) == Swept(st, now, todo - {id})
    ensures ListsTaken(st, now, todo - {id}, ListedOne(cur, now, id, queue))
  {
    if st.held[st.entries[id]].deadline <= now {
      SweepTakes(st, now, todo, id);
      SweepLists(st, now, todo, queue, id);
    } else {
      SweepKeeps(st, now, todo, id);
    }
  }

  lemma SweepEnd(st: Store, now: int, queue: seq<nat>)
    requires st.Ok() && ListsTaken(st, now, {}, queue)
    ensures Swept(st, now, {}) == st.Expire(now) && ListsExpired(st, now, queue)
  {
    forall h: nat ensures Taken(st, now, {}, h) <==> st.IsExpired(now, h) {
    }
    assert Swept(st, now, {}).held == st.Expire(now).held;
  }

  lemma DetachOk(st: Store, id: Text, e: Failure)
    requires st.Ok() && id in st.entries
    ensures var r := st.Detach(id, e);
            Differs(st, r, st.entries[id]) && r.entries == st.entries - {id}
            && r.held[st.entries[id]] == st.held[st.entries[id]].(err := Some(e))
  {
    DropSetOk(st, id, st.entries[id], st.held[st.entries[id]].(err := Some(e)));
  }

  /** Notifying one more request at the end. */
  lemma {:induction false} NotifyLast(st: Store, queue: seq<nat>, h: nat, e: Failure)
    requires h < |st.held| && forall i :: 0 <= i < |queue| ==> queue[i] < |st.held|
    ensures NotifyAll(st, queue + [h], e) == NotifyAll(st, queue, e).Poison(h, e).Complete(h, Some(e))
    decreases |queue|
  {
    if queue == [] {
      assert ([] + [h])[1..] == [];
    } else {
      assert (queue + [h])[1..] == queue[1..] + [h];
      NotifyLast(st.Poison(queue[0], e).Complete(queue[0], Some(e)), queue[1..], h, e);
    }
  }

  // ----- whole calls are uninterrupted runs -----

  lemma One(s: State, step: Step)
    requires Typed(s) && Enabled(s, step) && Typed(Apply(s, step))
    ensures Runs(s, [step]) && After(s, [step]) == Apply(s, step)
  {
    assert Runs(Apply(s, step), []);
    Cons(s, step, []);
  }

  lemma Cons(s: State, step: Step, rest: seq<Step>)
    requires Typed(s) && Enabled(s, step) && Runs(Apply(s, step), rest)
    ensures Runs(s, [step] + rest) && After(s, [step] + rest) == After(Apply(s, step), rest)
  {
    assert ([step] + rest)[1..] == rest;
  }

  lemma NotifyOne(st: Store, h: nat, e: Failure)
    requires h < |st.held|
    ensures NotifyAll(st, [h], e) == st.Poison(h, e).Complete(h, Some(e))
  {
    var one := [h];
    assert one[1..] == [];
  }

  lemma CancelIsARun(s: State, p: nat, id: Text, why: Option<Failure>) returns (steps: seq<Step>)
    requires Typed(s) && HI.Inv(s, false) && Enabled(s, Cancel(p, id, why))
    ensures Runs(s, steps)
    ensures var (st, known) := CancelCall(s.store, id, why);
            After(s, steps).store == st && After(s, steps).procs[p] == Ready(CancelAnswer(known))
  {
    var s1 := Apply(s, Cancel(p, id, why));
    HI.StepKeepsInv(s, Cancel(p, id, why), false);
    HI.InvTyped(s1, false);
    if id !in s.store.entries {
      One(s, Cancel(p, id, why));
      steps := [Cancel(p, id, why)];
    } else {
      steps := NotifyIsARun(s1, p);
      NotifyOne(s1.store, s.store.entries[id], CancelReason(why));
      Cons(s, Cancel(p, id, why), steps);
      steps := [Cancel(p, id, why)] + steps;
    }
  }

  /** One more step of a run that keeps the invariant. */
  lemma Next(s: State, step: Step)
    requires Typed(s) && HI.Inv(s, false) && Enabled(s, step)
    ensures HI.Inv(Apply(s, step), false) && Typed(Apply(s, step))
  {
    HI.StepKeepsInv(s, step, false);
    HI.InvTyped(Apply(s, step), false);
  }

  lemma CommitIsARun(s: State, p: nat) returns (steps: seq<Step>)
    requires Typed(s) && HI.Inv(s, false) && Enabled(s, Commit(p))
    ensures Runs(s, steps)
    ensures var h, e := s.procs[p].h, s.procs[p].e;
            var st := s.store.Commit(h, e);
            && After(s, steps).store == (if e.Some? then st.Complete(h, e) else st)
            && After(s, steps).procs[p] == Ready(if e.Some? then Failed(e.value) else GotStream(h))
  {
    var s1 := Apply(s, Commit(p));
    Next(s, Commit(p));
    if s.procs[p].e.Some? {
      Next(s1, Tell(p));
      One(s1, Tell(p));
      Cons(s, Commit(p), [Tell(p)]);
      steps := [Commit(p)] + [Tell(p)];
    } else {
      One(s, Commit(p));
      steps := [Commit(p)];
    }
  }

  /** Probe, Lock and Commit together. */
  lemma TargetStartIsARun(s: State, p: nat) returns (steps: seq<Step>)
    requires Typed(s) && HI.Inv(s, false) && Enabled(s, Probe(p))
    ensures Runs(s, steps)
    ensures var h := s.procs[p].h;
            var (sink, e) := StartSink(s.store.held[h].sink);
            var st := s.store.SetSink(h, sink).Commit(h, e);
            && After(s, steps).store == (if e.Some? then st.Complete(h, e) else st)
            && After(s, steps).procs[p] == Ready(if e.Some? then Failed(e.value) else GotStream(h))
  {
    var s1 := Apply(s, Probe(p));
    Next(s, Probe(p));
    if s1.procs[p].StartCommit? {
      steps := CommitIsARun(s1, p);
    } else {
      steps := LockIsARun(s1, p);
      SameSink(s.store, s.procs[p].h);
    }
    Cons(s, Probe(p), steps);
    steps := [Probe(p)] + steps;
  }

  /** Lock and Commit. */
  lemma LockIsARun(s: State, p: nat) returns (steps: seq<Step>)
    requires Typed(s) && HI.Inv(s, false) && Enabled(s, Lock(p))
    ensures Runs(s, steps)
    ensures var h := s.procs[p].h;
            var sink := s.store.held[h].sink;
            var st := s.store.SetSink(h, sink.Start()).Commit(h, sink.StartError());
            && After(s, steps).store == (if sink.StartError().Some? then st.Complete(h, sink.StartError()) else st)
            && After(s, steps).procs[p] == Ready(if sink.StartError().Some? then Failed(sink.StartError().value) else GotStream(h))
  {
    Next(s, Lock(p));
    steps := CommitIsARun(Apply(s, Lock(p)), p);
    Cons(s, Lock(p), steps);
    steps := [Lock(p)] + steps;
  }

  /** Probing and locking a target is starting it. */
  lemma SameSink(st: Store, h: nat)
    requires h < |st.held| && st.held[h].sink.ctx.None?
    ensures var x := st.held[h].sink.(starts := st.held[h].sink.starts + 1);
            st.SetSink(h, x).SetSink(h, x.Start()) == st.SetSink(h, StartSink(st.held[h].sink).0)
  {
  }

  lemma StartIsARun(s: State, p: nat, id: Text, token: Text, now: int) returns (steps: seq<Step>)
    requires Typed(s) && HI.Inv(s, false) && Enabled(s, StartIngest(p, id, token, now))
    ensures Runs(s, steps)
    ensures var (st, r) := StartCall(s.store, id, token, now);
            && After(s, steps).store == st
            && After(s, steps).procs[p] == Ready(match r case Ok(h) => GotStream(h) case Err(e) => Failed(e))
  {
    var step := StartIngest(p, id, token, now);
    var s1 := Apply(s, step);
    Next(s, step);
    match s.store.Admission(id, token, now)
    case Stale(h, e) =>
      Next(s1, Tell(p));
      One(s1, Tell(p));
      Cons(s, step, [Tell(p)]);
      steps := [step] + [Tell(p)];
    case Claimed(h) =>
      steps := TargetStartIsARun(s1, p);
      Cons(s, step, steps);
      steps := [step] + steps;
      ClaimedStore(s.store, id, token, now);
    case _ =>
      One(s, step);
      steps := [step];
  }

  lemma ClaimedStore(st: Store, id: Text, token: Text, now: int)
    requires st.Ok() && st.Admission(id, token, now).Claimed?
    ensures var h := st.Admission(id, token, now).h;
            var (sink, e) := StartSink(st.held[h].sink);
            st.Admit(id, token, now).SetSink(h, sink) == st.Set(h, st.held[h].(claimed := true, sink := sink))
  {
  }

  lemma CloseIsARun(s: State, p: nat, h: nat, e: Option<Failure>) returns (steps: seq<Step>)
    requires Typed(s) && HI.Inv(s, false) && s.mu.None? && Enabled(s, BeginClose(p, h, e))
    ensures Runs(s, steps)
    ensures var (st, answer) := CloseCall(s.store, h, e);
            After(s, steps).store == st && After(s, steps).procs[p] == Ready(Closed(answer))
  {
    var step := BeginClose(p, h, e);
    var s1 := Apply(s, step);
    Next(s, step);
    if s.store.held[h].stream.value.once.Finished? {
      One(s, step);
      steps := [step];
    } else {
      steps := ClosingIsARun(s1, p);
      Cons(s, step, steps);
      steps := [step] + steps;
      var x := s.store.held[h];
      assert s1.store.SetStream(h, s1.store.held[h].stream.value.(done := true))
             == s.store.SetStream(h, x.stream.value.(done := true, once := Running));
    }
  }

  lemma ClosingIsARun(s: State, p: nat) returns (steps: seq<Step>)
    requires Typed(s) && HI.Inv(s, false) && s.mu.None? && Enabled(s, CloseMark(p))
    ensures Runs(s, steps)
    ensures var h, e := s.procs[p].h, s.procs[p].e;
            var stream := s.store.held[h].stream.value;
            var st := s.store.SetStream(h, stream.(done := true)).Complete(h, e);
            && After(s, steps).store == st.Drop(s.store.held[h].id).SetStream(h, stream.(done := true, once := Finished))
            && After(s, steps).procs[p] == Ready(Closed(st.held[h].sink.err))
  {
    Next(s, CloseMark(p));
    steps := FinishingIsARun(Apply(s, CloseMark(p)), p);
    Cons(s, CloseMark(p), steps);
    steps := [CloseMark(p)] + steps;
  }

  lemma FinishingIsARun(s: State, p: nat) returns (steps: seq<Step>)
    requires Typed(s) && HI.Inv(s, false) && s.mu.None? && Enabled(s, CloseFinish(p))
    ensures Runs(s, steps)
    ensures var h, e := s.procs[p].h, s.procs[p].e;
            var st := s.store.Complete(h, e);
            && After(s, steps).store == st.Drop(s.store.held[h].id).SetStream(h, s.store.held[h].stream.value.(once := Finished))
            && After(s, steps).procs[p] == Ready(Closed(st.held[h].sink.err))
  {
    var s1 := Apply(s, CloseFinish(p));
    Next(s, CloseFinish(p));
    Next(s1, CloseRemove(p));
    One(s1, CloseRemove(p));
    Cons(s, CloseFinish(p), [CloseRemove(p)]);
    steps := [CloseFinish(p)] + [CloseRemove(p)];
  }

  lemma {:induction false} NotifyIsARun(s: State, p: nat) returns (steps: seq<Step>)
    requires Typed(s) && HI.Inv(s, false) && p < |s.procs| && s.procs[p].Notifying? && s.procs[p].queue != [] && !s.procs[p].poisoned
    ensures Runs(s, steps)
    ensures After(s, steps).store == NotifyAll(s.store, s.procs[p].queue, s.procs[p].why)
    ensures After(s, steps).procs[p] == Ready(s.procs[p].reply)
    decreases |s.procs[p].queue|
  {
    var n := s.procs[p];
    var s1 := Apply(s, Step.Poison(p));
    Next(s, Step.Poison(p));
    var s2 := Apply(s1, Tell(p));
    Next(s1, Tell(p));
    if |n.queue| == 1 {
      steps := [];
      assert n.queue[1..] == [];
    } else {
      steps := NotifyIsARun(s2, p);
    }
    Cons(s1, Tell(p), steps);
    steps := [Tell(p)] + steps;
    Cons(s, Step.Poison(p), steps);
    steps := [Step.Poison(p)] + steps;
  }

  lemma ExpireIsARun(s: State, p: nat, now: int, queue: seq<nat>) returns (steps: seq<Step>)
    requires Typed(s) && HI.Inv(s, false) && Enabled(s, Expire(p, now, queue))
    ensures Runs(s, steps)
    ensures After(s, steps).procs[p] == Ready(ExpireAnswer(|queue|))
    ensures After(s, steps).store == if queue == [] then s.store else NotifyAll(s.store.Expire(now), queue, Expired)
  {
    var step := Expire(p, now, queue);
    Next(s, step);
    if queue == [] {
      One(s, step);
      steps := [step];
    } else {
      steps := NotifyIsARun(Apply(s, step), p);
      Cons(s, step, steps);
      steps := [step] + steps;
    }
  }

  lemma PuttingIsARun(s: State, p: nat, n: nat, fails: bool, flushFails: bool) returns (steps: seq<Step>)
    requires Typed(s) && HI.Inv(s, false) && Enabled(s, WritePut(p, n, fails))
    requires s.store.held[s.procs[p].h].sink.ctx.None? && s.store.held[s.procs[p].h].stream.value.err.None?
    ensures Runs(s, steps)
    ensures After(s, steps).store == s.store.Put(s.procs[p].h, s.procs[p].p[..n])
    ensures After(s, steps).procs[p] == Ready(Wrote(n, if fails || (flushFails && n > 0) then Some(WriterFailed) else None))
  {
    var put, settle, check := WritePut(p, n, fails), WriteSettle(p, flushFails), WriteRecheck(p);
    var s1 := Apply(s, put);
    Next(s, put);
    if fails {
      steps := [];
    } else {
      var s2 := Apply(s1, settle);
      Next(s1, settle);
      if flushFails && n > 0 {
        steps := [];
      } else {
        Next(s2, check);
        One(s2, check);
        steps := [check];
      }
      Cons(s1, settle, steps);
      steps := [settle] + steps;
    }
    Cons(s, put, steps);
    steps := [put] + steps;
  }

  /** The answer once the context has been found alive. */
  lemma LockingIsARun(s: State, p: nat, n: nat, fails: bool, flushFails: bool) returns (steps: seq<Step>)
    requires Typed(s) && HI.Inv(s, false) && Enabled(s, WriteLock(p)) && n <= |s.procs[p].p|
    requires var x := s.store.held[s.procs[p].h]; x.sink.ctx.None? && x.stream.value.Refusal().None?
    ensures Runs(s, steps)
    ensures var h := s.procs[p].h;
            var x := s.store.held[h];
            var (bytes, count, err) := WriteCall(x.stream.value, x.sink, s.procs[p].p, n, fails, flushFails);
            && After(s, steps).store.held[h].sink == x.sink.(handed := x.sink.handed + bytes)
            && After(s, steps).procs[p] == Ready(Wrote(count, err))
  {
    var x := s.store.held[s.procs[p].h];
    var s1 := Apply(s, WriteLock(p));
    Next(s, WriteLock(p));
    if x.sink.completed {
      steps := [];
    } else if x.sink.head {
      Next(s1, WriteRecheck(p));
      One(s1, WriteRecheck(p));
      steps := [WriteRecheck(p)];
    } else {
      steps := PuttingIsARun(s1, p, n, fails, flushFails);
    }
    Cons(s, WriteLock(p), steps);
    steps := [WriteLock(p)] + steps;
  }

  /** The answer of a write that the stream has let through. */
  lemma ProbingIsARun(s: State, p: nat, n: nat, fails: bool, flushFails: bool) returns (steps: seq<Step>)
    requires Typed(s) && HI.Inv(s, false) && Enabled(s, WriteProbe(p)) && n <= |s.procs[p].p|
    requires s.store.held[s.procs[p].h].stream.value.Refusal().None?
    ensures Runs(s, steps)
    ensures var h := s.procs[p].h;
            var x := s.store.held[h];
            var (bytes, count, err) := WriteCall(x.stream.value, x.sink, s.procs[p].p, n, fails, flushFails);
            && After(s, steps).store.held[h].sink == x.sink.(handed := x.sink.handed + bytes)
            && After(s, steps).procs[p] == Ready(Wrote(count, err))
  {
    Next(s, WriteProbe(p));
    if s.store.held[s.procs[p].h].sink.ctx.Some? {
      steps := [];
    } else {
      steps := LockingIsARun(Apply(s, WriteProbe(p)), p, n, fails, flushFails);
    }
    Cons(s, WriteProbe(p), steps);
    steps := [WriteProbe(p)] + steps;
  }

  lemma WriteIsARun(s: State, p: nat, h: nat, data: Text, n: nat, fails: bool, flushFails: bool) returns (steps: seq<Step>)
    requires Typed(s) && HI.Inv(s, false) && Enabled(s, BeginWrite(p, h, data)) && n <= |data|
    ensures Runs(s, steps)
    ensures var x := s.store.held[h];
            var (bytes, count, err) := WriteCall(x.stream.value, x.sink, data, n, fails, flushFails);
            && After(s, steps).store.held[h].sink == x.sink.(handed := x.sink.handed + bytes)
            && After(s, steps).procs[p] == Ready(Wrote(count, err))
  {
    var begin := BeginWrite(p, h, data);
    Next(s, begin);
    if s.store.held[h].stream.value.Refusal().Some? {
      steps := [];
    } else {
      steps := ProbingIsARun(Apply(s, begin), p, n, fails, flushFails);
    }
    Cons(s, begin, steps);
    steps := [begin] + steps;
  }
}
