/** What the calls of the registry come to, said of ids, tokens, deadlines and errors and not of the functions that
    compute it (internal/pending/registry.go). */
module HeldOutcomes {
  import opened Octets
  import opened HeldRequests
  import opened HeldInvariants
  import opened HeldTheorems
  import HC = HeldCalls

  // ----- an expired request is never started -----

  /** A StartIngest that has found request `h` expired: the target is still to be told, or the call has failed. */
  ghost predicate Refusing(s: State, p: nat, h: nat) {
    && p < |s.procs| && Retired(s, h)
    && match s.procs[p]
       case Notifying(queue, why, poisoned, reply) => queue == [h] && poisoned && reply == Failed(Expired)
       case Ready(a) => a == Failed(Expired) && s.store.held[h].sink.completed
       case _ => false
  }

  /** Out of the map, and nobody is claiming it. */
  ghost predicate Retired(s: State, h: nat) {
    h < |s.store.held| && !s.store.InMap(h) && forall q :: 0 <= q < |s.procs| && Starting(s.procs[q]) ==> s.procs[q].h != h
  }

  lemma StaysRetired(s: State, step: Step, h: nat)
    requires Typed(s) && Enabled(s, step) && Retired(s, h)
    ensures Retired(Apply(s, step), h)
  {
    StaysUnmapped(s, step, h);
    forall q | 0 <= q < |Apply(s, step).procs| && Starting(Apply(s, step).procs[q]) ensures Apply(s, step).procs[q].h != h {
      StartsFromTheMap(s, step, q);
    }
  }

  lemma StaysUnmapped(s: State, step: Step, h: nat)
    requires Typed(s) && Enabled(s, step) && h < |s.store.held| && !s.store.InMap(h)
    ensures h < |Apply(s, step).store.held| && !Apply(s, step).store.InMap(h)
  {
    if !step.Register? {
      MapShrinks(s, step);
      IdsStay(s, step);
    }
  }

  lemma MapShrinks(s: State, step: Step)
    requires Typed(s) && Enabled(s, step) && !step.Register?
    ensures forall id <- Apply(s, step).store.entries :: id in s.store.entries && Apply(s, step).store.entries[id] == s.store.entries[id]
  {
  }

  lemma IdsStay(s: State, step: Step)
    requires Typed(s) && Enabled(s, step) && !step.Register?
    ensures |Apply(s, step).store.held| == |s.store.held|
    ensures forall h: nat :: h < |s.store.held| ==> Apply(s, step).store.held[h].id == s.store.held[h].id
  {
  }

  lemma StartsFromTheMap(s: State, step: Step, q: nat)
    requires Typed(s) && Enabled(s, step) && q < |Apply(s, step).procs| && Starting(Apply(s, step).procs[q])
    ensures q < |s.procs|
    ensures (Starting(s.procs[q]) && s.procs[q].h == Apply(s, step).procs[q].h) || s.store.InMap(Apply(s, step).procs[q].h)
  {
    if !step.StartIngest? { StartsGoOn(s, step, q); }
  }

  lemma StartsGoOn(s: State, step: Step, q: nat)
    requires Typed(s) && Enabled(s, step) && q < |Apply(s, step).procs| && Starting(Apply(s, step).procs[q]) && !step.StartIngest?
    ensures q < |s.procs| && Starting(s.procs[q]) && s.procs[q].h == Apply(s, step).procs[q].h
  {
    if step.Probe? || step.Lock? || step.Commit? { OwnStartGoesOn(s, step, q); } else { NoStartBegins(s, step, q); }
  }

  lemma OwnStartGoesOn(s: State, step: Step, q: nat)
    requires Typed(s) && Enabled(s, step) && q < |Apply(s, step).procs| && Starting(Apply(s, step).procs[q])
    requires step.Probe? || step.Lock? || step.Commit?
    ensures q < |s.procs| && Starting(s.procs[q]) && s.procs[q].h == Apply(s, step).procs[q].h
  {
  }

  lemma NoStartBegins(s: State, step: Step, q: nat)
    requires Typed(s) && Enabled(s, step) && q < |Apply(s, step).procs| && Starting(Apply(s, step).procs[q])
    requires !step.StartIngest? && !step.Probe? && !step.Lock? && !step.Commit?
    ensures q < |s.procs| && s.procs[q] == Apply(s, step).procs[q]
  {
  }

  lemma RefusedAtOnce(s: State, p: nat, id: Text, token: Text, now: int)
    requires Typed(s) && Inv(s, false) && Enabled(s, StartIngest(p, id, token, now))
    requires id in s.store.entries && s.store.held[s.store.entries[id]].deadline <= now
    ensures var s' := Apply(s, StartIngest(p, id, token, now));
            Refusing(s', p, s.store.entries[id]) && id !in s'.store.entries && s'.store.held == s.store.held
  {
    var h := s.store.entries[id];
    assert HeldOk(s, h, false) && s.store.InMap(h);
    forall q | 0 <= q < |s.procs| ensures !Starting(s.procs[q]) { assert ProcOk(s, q); }
  }

  /** A step that is not its own leaves the call where it is. */
  lemma StepStaysRefusing(s: State, step: Step, p: nat, h: nat)
    requires Typed(s) && Enabled(s, step) && Refusing(s, p, h) && !Begins(step, p)
    ensures Refusing(Apply(s, step), p, h) && (step.Commit? ==> step.p != p)
    ensures Apply(s, step).store.held[h].stream.Some? == s.store.held[h].stream.Some?
  {
    StaysRetired(s, step, h);
    RetiredKeepsStream(s, step, h);
    if step.Spawn? || step.Register? || step.CtxDone? || step.p != p {
      OtherStepLeavesCall(s, p, step);
      if s.store.held[h].sink.completed { CompletionStays(s, step, h); }
    } else {
      TellsTheRefused(s, step, h);
    }
  }

  lemma RetiredKeepsStream(s: State, step: Step, h: nat)
    requires Typed(s) && Enabled(s, step) && Retired(s, h)
    ensures h < |Apply(s, step).store.held| && Apply(s, step).store.held[h].stream.Some? == s.store.held[h].stream.Some?
  {
  }

  lemma TellsTheRefused(s: State, step: Step, h: nat)
    requires Typed(s) && Enabled(s, step) && !step.Spawn? && !step.Register? && !step.CtxDone?
    requires Refusing(s, step.p, h) && !Begins(step, step.p)
    ensures step.Tell? && Apply(s, step).procs[step.p] == Ready(Failed(Expired)) && Apply(s, step).store.held[h].sink.completed
  {
  }

  lemma {:induction false} RunStaysRefusing(s: State, p: nat, h: nat, rest: seq<Step>)
    requires Runs(s, rest) && Refusing(s, p, h) && forall j :: 0 <= j < |rest| ==> !Begins(rest[j], p)
    ensures Refusing(After(s, rest), p, h) && After(s, rest).store.held[h].stream.Some? == s.store.held[h].stream.Some?
    ensures forall j :: 0 <= j < |rest| && rest[j].Commit? ==> rest[j].p != p
    decreases |rest|
  {
    if rest != [] {
      StepStaysRefusing(s, rest[0], p, h);
      RunStaysRefusing(Apply(s, rest[0]), p, h, rest[1..]);
      forall j | 0 <= j < |rest| && rest[j].Commit? ensures rest[j].p != p { if j > 0 { assert rest[j] == rest[1..][j - 1]; } }
    }
  }

  /** No stream for an expired request: in every run, a StartIngest for a mapped request whose deadline is not after
      `now` takes the id out of the map, attaches no stream, and in every continuation ends in ErrExpired with the
      target completed. */
  lemma ExpiredIsNeverStarted(before: seq<Step>, p: nat, id: Text, token: Text, now: int, rest: seq<Step>)
    requires Runs(Init, before) && Enabled(After(Init, before), StartIngest(p, id, token, now))
    requires var st := After(Init, before).store; id in st.entries && st.held[st.entries[id]].deadline <= now
    requires Runs(Apply(After(Init, before), StartIngest(p, id, token, now)), rest) && forall j :: 0 <= j < |rest| ==> !Begins(rest[j], p)
    ensures var s, h := After(Init, before), After(Init, before).store.entries[id];
            var s' := Apply(s, StartIngest(p, id, token, now));
            var t := After(s', rest);
            && id !in s'.store.entries && !t.store.InMap(h)
            && (t.procs[p].Ready? ==> t.procs[p].answer == Failed(Expired) && t.store.held[h].sink.completed)
            && t.store.held[h].stream.Some? == s.store.held[h].stream.Some?
    ensures forall j :: 0 <= j < |rest| && rest[j].Commit? ==> rest[j].p != p
  {
    var s := After(Init, before);
    RunKeepsInv(Init, before, false);
    RefusedAtOnce(s, p, id, token, now);
    RunStaysRefusing(Apply(s, StartIngest(p, id, token, now)), p, s.store.entries[id], rest);
  }

  /** Every answer of StartIngest, and exactly when it is a stream. */
  lemma StartExactlyWhen(st: Store, id: Text, token: Text, now: int)
    requires st.Ok()
    ensures HC.StartCall(st, id, token, now).1.Ok? <==>
              id in st.entries
              && var x := st.held[st.entries[id]];
                 x.err.None? && now < x.deadline && !x.claimed && x.token == token && x.sink.ctx.None? && !x.sink.completed
    ensures var (r, answer) := HC.StartCall(st, id, token, now);
            && (answer.Ok? ==>
                  && answer.value == st.entries[id] && r.entries == st.entries
                  && r.held[answer.value].claimed && r.held[answer.value].stream == Some(NewStream) && r.held[answer.value].sink.started)
            && (answer.Err? && id !in st.entries ==> answer.error == NotFound && r == st)
            && (answer.Err? && id in st.entries ==>
                  var x, y := st.held[st.entries[id]], r.held[st.entries[id]];
                  if x.err.None? && now < x.deadline && x.claimed then answer.error == Replayed && r == st
                  else if x.err.None? && now < x.deadline && x.token != token then answer.error == InvalidToken && r == st
                  else r.entries == st.entries - {id} && y.sink.completed && y.stream == x.stream
                       && (x.err.None? && x.deadline <= now ==> answer.error == Expired)
                       && (!x.sink.completed ==> y.sink.err == Some(answer.error)))
  {
    HC.StartOk(st, id, token, now);
  }

  // ----- a write whose stream is cancelled fails -----

  ghost predicate Poisoned(s: State, h: nat) {
    HasStream(s, h) && s.store.held[h].stream.value.err.Some?
  }

  lemma PoisonStays(s: State, step: Step, h: nat)
    requires Typed(s) && Inv(s, false) && Enabled(s, step) && Poisoned(s, h)
    ensures Poisoned(Apply(s, step), h) && Apply(s, step).store.held[h].stream.value.err == s.store.held[h].stream.value.err
  {
    if step.Commit? { assert ProcOk(s, step.p); }
    if ChangesMap(step) { MapStepKeepsPoison(s, step, h); } else { OtherStepKeepsPoison(s, step, h); }
  }

  lemma MapStepKeepsPoison(s: State, step: Step, h: nat)
    requires Typed(s) && Enabled(s, step) && Poisoned(s, h) && ChangesMap(step)
    requires step.Commit? ==> s.store.held[s.procs[step.p].h].stream.None?
    ensures Poisoned(Apply(s, step), h) && Apply(s, step).store.held[h].stream.value.err == s.store.held[h].stream.value.err
  {
  }

  lemma OtherStepKeepsPoison(s: State, step: Step, h: nat)
    requires Typed(s) && Enabled(s, step) && Poisoned(s, h) && !ChangesMap(step)
    ensures Poisoned(Apply(s, step), h) && Apply(s, step).store.held[h].stream.value.err == s.store.held[h].stream.value.err
  {
  }

  /** A write on request `h`, or one that has failed. */
  ghost predicate Failing(s: State, p: nat, h: nat) {
    && p < |s.procs| && Poisoned(s, h)
    && match s.procs[p]
       case Writing(g, _, _, _) => g == h
       case Ready(a) => a.Wrote? && a.werr.Some?
       case _ => false
  }

  lemma StepStaysFailing(s: State, step: Step, p: nat, h: nat)
    requires Typed(s) && Inv(s, false) && Enabled(s, step) && Failing(s, p, h) && !Begins(step, p)
    ensures Failing(Apply(s, step), p, h)
  {
    PoisonStays(s, step, h);
    if step.Spawn? || step.Register? || step.CtxDone? || step.p != p { OtherStepLeavesCall(s, p, step); } else { OwnWriteFails(s, step, h); }
  }

  lemma OwnWriteFails(s: State, step: Step, h: nat)
    requires Typed(s) && Enabled(s, step) && !step.Spawn? && !step.Register? && !step.CtxDone?
    requires Failing(s, step.p, h) && !Begins(step, step.p)
    ensures var c := Apply(s, step).procs[step.p]; (c.Writing? && c.h == h) || (c.Ready? && c.answer.Wrote? && c.answer.werr.Some?)
  {
  }

  lemma {:induction false} RunStaysFailing(s: State, p: nat, h: nat, rest: seq<Step>)
    requires Inv(s, false) && Runs(s, rest) && Failing(s, p, h) && forall j :: 0 <= j < |rest| ==> !Begins(rest[j], p)
    ensures Failing(After(s, rest), p, h)
    decreases |rest|
  {
    if rest != [] {
      StepStaysFailing(s, rest[0], p, h);
      StepKeepsInv(s, rest[0], false);
      RunStaysFailing(Apply(s, rest[0]), p, h, rest[1..]);
    }
  }

  /** A Write is told of a cancellation that comes while it runs: once its stream is poisoned it cannot succeed. */
  lemma PoisonedWriteFails(before: seq<Step>, p: nat, h: nat, rest: seq<Step>)
    requires Runs(Init, before) && Poisoned(After(Init, before), h)
    requires var s := After(Init, before); p < |s.procs| && s.procs[p].Writing? && s.procs[p].h == h
    requires Runs(After(Init, before), rest) && forall j :: 0 <= j < |rest| ==> !Begins(rest[j], p)
    ensures var t := After(After(Init, before), rest); t.procs[p].Ready? ==> t.procs[p].answer.Wrote? && t.procs[p].answer.werr.Some?
  {
    RunKeepsInv(Init, before, false);
    RunStaysFailing(After(Init, before), p, h, rest);
  }

  // ----- a closed stream leaves nothing behind -----

  ghost predicate ClosedIsGone(s: State) {
    forall h :: 0 <= h < |s.store.held| && s.store.held[h].stream.Some? && s.store.held[h].stream.value.once.Finished? ==>
      !s.store.InMap(h) && s.store.held[h].sink.completed
  }

  lemma StepKeepsClosedGone(s: State, step: Step)
    requires Typed(s) && Inv(s, false) && Enabled(s, step) && ClosedIsGone(s)
    ensures ClosedIsGone(Apply(s, step))
  {
    var s' := Apply(s, step);
    forall h | 0 <= h < |s'.store.held| && s'.store.held[h].stream.Some? && s'.store.held[h].stream.value.once.Finished?
      ensures !s'.store.InMap(h) && s'.store.held[h].sink.completed
    {
      if h < |s.store.held| && s.store.held[h].stream.Some? && s.store.held[h].stream.value.once.Finished? {
        StaysUnmapped(s, step, h);
        CompletionStays(s, step, h);
      } else {
        FinishedByRemove(s, step, h);
      }
    }
  }

  lemma FinishedByRemove(s: State, step: Step, h: nat)
    requires Typed(s) && Inv(s, false) && Enabled(s, step) && h < |Apply(s, step).store.held|
    requires var x := Apply(s, step).store.held[h]; x.stream.Some? && x.stream.value.once.Finished?
    requires !(h < |s.store.held| && s.store.held[h].stream.Some? && s.store.held[h].stream.value.once.Finished?)
    ensures !Apply(s, step).store.InMap(h) && Apply(s, step).store.held[h].sink.completed
  {
    OnlyRemoveFinishes(s, step, h);
    assert ProcOk(s, step.p);
  }

  lemma OnlyRemoveFinishes(s: State, step: Step, h: nat)
    requires Typed(s) && Enabled(s, step) && h < |Apply(s, step).store.held|
    requires var x := Apply(s, step).store.held[h]; x.stream.Some? && x.stream.value.once.Finished?
    requires !(h < |s.store.held| && s.store.held[h].stream.Some? && s.store.held[h].stream.value.once.Finished?)
    ensures step.CloseRemove? && s.procs[step.p].h == h
  {
  }

  lemma {:induction false} RunKeepsClosedGone(s: State, steps: seq<Step>)
    requires Inv(s, false) && Runs(s, steps) && ClosedIsGone(s)
    ensures ClosedIsGone(After(s, steps))
    decreases |steps|
  {
    if steps != [] {
      StepKeepsClosedGone(s, steps[0]);
      StepKeepsInv(s, steps[0], false);
      RunKeepsClosedGone(Apply(s, steps[0]), steps[1..]);
    }
  }

  /** In every run, with any reuse of ids: a stream whose close has finished has its request out of the map for good and
      its waiter released. */
  lemma ClosedIsUnmapped(steps: seq<Step>, h: nat)
    requires Runs(Init, steps) && HasStream(After(Init, steps), h)
    requires After(Init, steps).store.held[h].stream.value.once.Finished?
    ensures !After(Init, steps).store.InMap(h) && After(Init, steps).store.held[h].sink.completed
  {
    RunKeepsClosedGone(Init, steps);
  }

  // ----- what whole calls come to -----

  /** Cancel, Expire: what has become of the request that was told `e`. */
  predicate WasTold(x: Held, y: Held, e: Failure) {
    && y.id == x.id && y.claimed == x.claimed && y.sink.completed && y.sink.handed == x.sink.handed
    && (if x.sink.completed then y.sink == x.sink else y.sink.err == Some(e) && y.sink.closes == x.sink.closes + 1)
    && (y.stream.Some? <==> x.stream.Some?)
    && (x.stream.Some? ==> y.stream.value.err == if x.stream.value.err.Some? then x.stream.value.err else Some(e))
  }

  lemma CancelOutcome(st: Store, id: Text, why: Option<Failure>)
    requires st.Ok()
    ensures var (r, known) := HC.CancelCall(st, id, why);
            && known == (id in st.entries) && r.entries == st.entries - {id} && |r.held| == |st.held|
            && (known ==>
                  var h, e := st.entries[id], if why.Some? then why.value else Canceled;
                  WasTold(st.held[h], r.held[h], e) && r.held[h].err == Some(e))
            && forall g :: 0 <= g < |st.held| && (!known || g != st.entries[id]) ==> r.held[g] == st.held[g]
  {
    if id in st.entries { HC.CancelOk(st, id, why); }
  }

  lemma {:induction false} ToldOnce(st: Store, queue: seq<nat>, e: Failure, h: nat)
    requires h < |st.held| && forall i :: 0 <= i < |queue| ==> queue[i] < |st.held|
    requires forall i, j :: 0 <= i < j < |queue| ==> queue[i] != queue[j]
    ensures HC.NotifyAll(st, queue, e).held[h] == if h in queue then HC.Told(st.held[h], e) else st.held[h]
    decreases |queue|
  {
    if queue != [] {
      ToldOnce(st.Poison(queue[0], e).Complete(queue[0], Some(e)), queue[1..], e, h);
      assert queue == [queue[0]] + queue[1..];
    }
  }

  /** Exactly the entries whose deadline is not after `now` are taken out, marked and told. */
  lemma ExpireOutcome(st: Store, now: int, queue: seq<nat>)
    requires st.Ok() && ListsExpired(st, now, queue)
    ensures var r := HC.NotifyAll(st.Expire(now), queue, Expired);
            && (forall id :: id in r.entries <==> id in st.entries && now < st.held[st.entries[id]].deadline)
            && (forall id <- r.entries :: r.entries[id] == st.entries[id])
            && (forall id <- st.entries :: id !in r.entries ==>
                  var h := st.entries[id]; h in queue && WasTold(st.held[h], r.held[h], Expired) && r.held[h].err == Some(Expired))
            && (forall h :: 0 <= h < |st.held| && h !in queue ==> r.held[h] == st.held[h])
  {
    forall h | 0 <= h < |st.held|
      ensures HC.NotifyAll(st.Expire(now), queue, Expired).held[h] ==
              if h in queue then HC.Told(st.Expire(now).held[h], Expired) else st.Expire(now).held[h]
      ensures h in queue <==> st.IsExpired(now, h)
    {
      ToldOnce(st.Expire(now), queue, Expired, h);
    }
  }

  /** CloseWithError: only the first call that finds the once open does anything, and it answers what the target
      was completed with. */
  lemma CloseOutcome(st: Store, h: nat, e: Option<Failure>)
    requires st.Ok() && h < |st.held| && st.held[h].stream.Some?
    ensures var (r, answer) := HC.CloseCall(st, h, e);
            var x, y := st.held[h], r.held[h];
            if x.stream.value.once.Finished? then r == st && answer.None?
            else
              && r.entries == st.entries - {x.id} && y.stream == Some(x.stream.value.(done := true, once := Finished))
              && y.sink.completed && answer == y.sink.err && y.sink.err == (if x.sink.completed then x.sink.err else e)
              && y.sink.handed == x.sink.handed
  {
  }

  /** A Write succeeds exactly on an open, uncancelled stream to a live, uncompleted target whose writer does not fail;
      what it counts has been handed over, but for HEAD, where all is counted and nothing handed over. */
  lemma WriteOutcome(stream: Stream, sink: Sink, p: Text, n: nat, fails: bool, flushFails: bool)
    requires n <= |p|
    ensures var (bytes, count, werr) := HC.WriteCall(stream, sink, p, n, fails, flushFails);
            && (werr.None? <==> stream.err.None? && !stream.done && sink.ctx.None? && !sink.completed
                                && (sink.head || !(fails || (flushFails && n > 0))))
            && bytes == (if sink.head then [] else p[..count])
            && (werr.None? ==> count == if sink.head then |p| else n)
            && (stream.err.Some? ==> werr == stream.err && count == 0)
            && (stream.err.None? && stream.done ==> werr == Some(ClosedPipe) && count == 0)
  {
  }
}
