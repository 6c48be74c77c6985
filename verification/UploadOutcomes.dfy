/** What the calls of the upload-source registry come to, said of ids, tokens, deadlines and errors and not of the functions
    that compute it (internal/uploadsource/registry.go). */
module UploadOutcomes {
  import opened Octets
  import opened UploadSources
  import opened UploadTheorems
  import N = Names
  import CP = CodePoints
  import UR = UploadRegistry

  // ----- an expired source is never claimed -----

  predicate Begins(step: Step, p: nat) {
    (step.Claim? || step.BeginClose? || step.Cancel? || step.Expire? || step.WatchFires?) && step.p == p
  }

  /** A Claim that has found source `h` expired: still terminating it, or answered. */
  ghost predicate Refusing(s: State, p: nat, h: nat, claims: nat) {
    && p < |s.procs| && h < |s.store.held| && !s.store.InMap(h) && s.store.held[h].claims == claims
    && match s.procs[p]
       case Ready(a) => a == Failed(Expired)
       case Terminating(queue, _, caller, _) => queue == [h] && caller.ByClaim?
  }

  lemma StaysUnmapped(s: State, step: Step, h: nat)
    requires s.store.Ok() && Enabled(s, step) && h < |s.store.held| && !s.store.InMap(h)
    ensures h < |Apply(s, step).store.held| && !Apply(s, step).store.InMap(h) && Apply(s, step).store.held[h].claims == s.store.held[h].claims
  {
    if !step.Register? {
      WatchersOnlyEnd(s, step);
      MapOnlyShrinks(s, step);
    }
  }

  lemma StepStaysRefusing(s: State, step: Step, p: nat, h: nat, claims: nat)
    requires s.store.Ok() && Enabled(s, step) && Refusing(s, p, h, claims) && !Begins(step, p)
    ensures Refusing(Apply(s, step), p, h, claims)
  {
    StaysUnmapped(s, step, h);
  }

  lemma {:induction false} RunStaysRefusing(s: State, p: nat, h: nat, claims: nat, rest: seq<Step>)
    requires IsRun(s, rest) && Refusing(s, p, h, claims) && forall j :: 0 <= j < |rest| ==> !Begins(rest[j], p)
    ensures Refusing(After(s, rest), p, h, claims)
    decreases |rest|
  {
    if rest != [] {
      StepStaysRefusing(s, rest[0], p, h, claims);
      RunStaysRefusing(Apply(s, rest[0]), p, h, claims, rest[1..]);
    }
  }

  /** In every run, a Claim for a mapped source whose deadline is not after `now` takes the id out of the map, and in every
      continuation it never counts as a claim and ends in ErrExpired. */
  lemma ExpiredIsNeverClaimed(before: seq<Step>, p: nat, id: Text, token: Text, now: int, rest: seq<Step>)
    requires IsRun(Init, before) && Enabled(After(Init, before), Claim(p, id, token, now))
    requires var st := After(Init, before).store; id in st.entries && st.held[st.entries[id]].deadline <= now
    requires IsRun(Apply(After(Init, before), Claim(p, id, token, now)), rest) && forall j :: 0 <= j < |rest| ==> !Begins(rest[j], p)
    ensures var s, h := After(Init, before), After(Init, before).store.entries[id];
            var s' := Apply(s, Claim(p, id, token, now));
            var t := After(s', rest);
            && p < |t.procs| && h < |t.store.held|
            && id !in s'.store.entries && !t.store.InMap(h) && t.store.held[h].claims == s.store.held[h].claims
            && (t.procs[p].Ready? ==> t.procs[p].answer == Failed(Expired))
  {
    var s := After(Init, before);
    var h := s.store.entries[id];
    RunStaysRefusing(Apply(s, Claim(p, id, token, now)), p, h, s.store.held[h].claims, rest);
  }

  // ----- what whole calls come to -----

  /** `y` is `x` after its only termination, with `why`. */
  predicate Ended(x: Source, y: Source, why: Option<Failure>) {
    && y.once.Finished? && y.terminalErr == why && y.doneCloses == x.doneCloses + 1 && y.bodyCloses == x.bodyCloses + 1
    && y.id == x.id && y.token == x.token && y.deadline == x.deadline && y.claims == x.claims && y.watch == x.watch && y.ctxDone == x.ctxDone
  }

  /** Every answer of Claim, and exactly when it is a claim. */
  lemma ClaimExactlyWhen(st: Store, id: Text, token: Text, now: int)
    requires st.Ok()
    ensures var (r, answer) := UR.ClaimCall(st, id, token, now);
            && (answer.Ok? <==>
                  id in st.entries && var x := st.held[st.entries[id]]; now < x.deadline && x.claims == 0 && x.token == token)
            && (answer.Ok? ==>
                  && answer.value == st.entries[id] && r.entries == st.entries
                  && r.held == st.held[answer.value := st.held[answer.value].(claims := 1)])
            && (id !in st.entries ==> answer == Err(NotFound) && r == st)
            && (id in st.entries ==>
                  var h := st.entries[id];
                  var x := st.held[h];
                  if x.deadline <= now then
                    answer == Err(Failure.Expired) && r.entries == st.entries - {id} && |r.held| == |st.held|
                    && if x.once.Idle? then Ended(x, r.held[h], Some(Failure.Expired)) else r.held[h] == x
                  else if x.claims > 0 then answer == Err(Replayed) && r == st
                  else if x.token != token then answer == Err(InvalidToken) && r == st
                  else answer.Ok?)
  {
    UR.ClaimOk(st, id, token, now);
  }

  /** Cancel: the id is gone; only the call that terminates the source answers true, and it leaves its reason. */
  lemma CancelOutcome(st: Store, id: Text, why: Option<Failure>)
    requires st.Ok()
    ensures var (r, known) := UR.CancelCall(st, id, why);
            && known == (id in st.entries && st.held[st.entries[id]].once.Idle?)
            && r.entries == st.entries - {id} && |r.held| == |st.held|
            && (known ==> Ended(st.held[st.entries[id]], r.held[st.entries[id]], Some(if why.Some? then why.value else Canceled)))
            && forall g :: 0 <= g < |st.held| && (!known || g != st.entries[id]) ==> r.held[g] == st.held[g]
  {
  }

  lemma {:induction false} EndedOnce(st: Store, queue: seq<nat>, h: nat)
    requires st.Ok() && h < |st.held| && forall i :: 0 <= i < |queue| ==> queue[i] < |st.held|
    requires forall i, j :: 0 <= i < j < |queue| ==> queue[i] != queue[j]
    requires forall i :: 0 <= i < |queue| ==> !st.InMap(queue[i])
    ensures var r := UR.TerminateAll(st, queue);
            && r.entries == st.entries && |r.held| == |st.held|
            && if h in queue && st.held[h].once.Idle? then Ended(st.held[h], r.held[h], Some(Failure.Expired)) else r.held[h] == st.held[h]
    decreases |queue|
  {
    if queue != [] {
      var st' := UR.Terminated(st, queue[0], Some(Failure.Expired), ByExpire(0)).0;
      UR.TerminatedOk(st, queue[0], Some(Failure.Expired), ByExpire(0));
      EndedOnce(st', queue[1..], h);
      assert queue == [queue[0]] + queue[1..];
    }
  }

  lemma {:induction false} EntriesStay(st: Store, queue: seq<nat>)
    requires st.Ok() && forall i :: 0 <= i < |queue| ==> queue[i] < |st.held| && !st.InMap(queue[i])
    ensures UR.TerminateAll(st, queue).entries == st.entries
    decreases |queue|
  {
    if queue != [] {
      UR.TerminatedOk(st, queue[0], Some(Failure.Expired), ByExpire(0));
      EntriesStay(UR.Terminated(st, queue[0], Some(Failure.Expired), ByExpire(0)).0, queue[1..]);
    }
  }

  /** Exactly the sources whose deadline is not after `now` are taken out and terminated. */
  lemma ExpireOutcome(st: Store, now: int, queue: seq<nat>)
    requires st.Ok() && ListsExpired(st, now, queue)
    ensures var r := UR.TerminateAll(st.Expire(now), queue);
            && (forall id :: id in r.entries <==> id in st.entries && now < st.held[st.entries[id]].deadline)
            && (forall id <- r.entries :: r.entries[id] == st.entries[id]) && |r.held| == |st.held|
            && (forall h: nat :: h < |st.held| ==>
                  if st.InMap(h) && st.held[h].deadline <= now && st.held[h].once.Idle?
                  then Ended(st.held[h], r.held[h], Some(Failure.Expired)) else r.held[h] == st.held[h])
  {
    ExpiredAreOut(st, now);
    forall h: nat | h < |st.held|
      ensures var r := UR.TerminateAll(st.Expire(now), queue);
              && r.entries == st.Expire(now).entries && |r.held| == |st.held|
              && if st.InMap(h) && st.held[h].deadline <= now && st.held[h].once.Idle?
                 then Ended(st.held[h], r.held[h], Some(Failure.Expired)) else r.held[h] == st.held[h]
    {
      EndedOnce(st.Expire(now), queue, h);
      assert h in queue <==> st.IsExpired(now, h);
    }
    EntriesStay(st.Expire(now), queue);
  }

  lemma ExpiredAreOut(st: Store, now: int)
    requires st.Ok()
    ensures st.Expire(now).Ok() && forall h: nat :: st.IsExpired(now, h) ==> !st.Expire(now).InMap(h)
  {
  }

  /** Which sources Register takes, before it looks at the context and the map. */
  lemma OfferIsAcceptedExactlyWhen(o: UR.Offer, now: int)
    ensures UR.Objection(o, now).None? <==>
              && o.hasBody && N.SafeToken(o.id) && N.SafeToken(o.token) && o.deadline.Some? && now < o.deadline.value
              && (o.contentLength.Some? ==> o.contentLength.value >= 0)
              && |o.contentType| <= 255 && CP.NoControl(o.contentType)
    ensures UR.Objection(o, now) == Some(Failure.Expired) ==> o.deadline.Some? && o.deadline.value <= now
  {
    CP.NoControlIs(o.contentType);
  }
}
