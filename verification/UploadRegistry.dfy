/** The objects of internal/uploadsource/registry.go: whole calls as functions of the store, the class whose
    methods compute them, and the fact that an undisturbed call is a run of the step relation. */
module UploadRegistry {
  import opened Octets
  import opened UploadSources
  import N = Names
  import R = Runes
  import UI = UploadInvariants
  import opened UploadTheorems

  // ----- whole calls -----

  /** What is handed to Register; the zero time is None, and `ctx` says of a context whether it has ended. */
  datatype Offer = Offer(
      id: Text, token: Text, deadline: Option<int>, hasBody: bool, contentLength: Option<int>, contentType: Text, ctx: Option<bool>)

  /** validateSource. */
  function Objection(o: Offer, now: int): Option<Failure> {
    if !o.hasBody || !N.SafeToken(o.id) || !N.SafeToken(o.token) || o.deadline.None? then Some(InvalidSource)
    else if o.deadline.value <= now then Some(Failure.Expired)
    else if o.contentLength.Some? && o.contentLength.value < 0 then Some(InvalidSource)
    else if |o.contentType| > 255 || R.HasControl(o.contentType) then Some(InvalidSource)
    else None
  }

  /** terminate: the store afterwards, and whether this call did it. */
  function Terminated(st: Store, h: nat, why: Option<Failure>, caller: Caller): (Store, bool)
    requires h < |st.held|
  {
    var x := st.held[h];
    if !x.once.Idle? then (st, false)
    else
      (st.Release(h).Set(h, x.(once := Finished, terminalErr := why, doneCloses := x.doneCloses + 1, bodyCloses := x.bodyCloses + 1,
                               cancels := if caller.ByCancel? then x.cancels + 1 else x.cancels)), true)
  }

  function TerminateAll(st: Store, queue: seq<nat>): (r: Store)
    requires forall i :: 0 <= i < |queue| ==> queue[i] < |st.held|
    ensures |r.held| == |st.held|
    decreases |queue|
  {
    if queue == [] then st else TerminateAll(Terminated(st, queue[0], Some(Failure.Expired), ByExpire(0)).0, queue[1..])
  }

  function CancelCall(st: Store, id: Text, why: Option<Failure>): (Store, bool)
    requires st.Ok()
  {
    if id !in st.entries then (st, false)
    else Terminated(st.Drop(id), st.entries[id], Some(if why.Some? then why.value else Canceled), ByCancel)
  }

  function ClaimCall(st: Store, id: Text, token: Text, now: int): (Store, Result<nat, Failure>)
    requires st.Ok()
  {
    match st.Admission(id, token, now)
    case Missing => (st, Err(NotFound))
    case Stale(h) => (Terminated(st.Drop(id), h, Some(Failure.Expired), ByClaim).0, Err(Failure.Expired))
    case Refused(e) => (st, Err(e))
    case Granted(h) => (st.Admit(id, token, now), Ok(h))
  }

  lemma TerminatedOk(st: Store, h: nat, why: Option<Failure>, caller: Caller)
    requires st.Ok() && h < |st.held|
    ensures Differs(st, Terminated(st, h, why, caller).0, h)
    ensures var r := Terminated(st, h, why, caller).0;
            r.entries == if st.held[h].once.Idle? && st.InMap(h) then st.entries - {st.held[h].id} else st.entries
  {
  }

  lemma RegisterOk(st: Store, id: Text, token: Text, deadline: int, watched: bool)
    requires st.Ok()
    ensures st.Register(id, token, deadline, watched).Ok()
  {
  }

  lemma ClaimOk(st: Store, id: Text, token: Text, now: int)
    requires st.Ok()
    ensures var (r, answer) := ClaimCall(st, id, token, now);
            match st.Admission(id, token, now)
            case Granted(h) =>
              Differs(st, r, h) && r.entries == st.entries && r.held[h] == st.held[h].(claims := st.held[h].claims + 1) && answer == Ok(h)
            case Stale(h) => r == Terminated(st.Drop(id), st.entries[id], Some(Failure.Expired), ByClaim).0 && answer == Err(Failure.Expired)
            case Missing => r == st && answer == Err(NotFound)
            case Refused(e) => r == st && answer == Err(e)
  {
  }

  /** `st'` differs from `st` in source `h` and the map only. */
  ghost predicate Differs(st: Store, st': Store, h: nat) {
    st'.Ok() && |st'.held| == |st.held| && forall j :: 0 <= j < |st.held| && j != h ==> st'.held[j] == st.held[j]
  }

  /** In the middle of Expire's first loop, `todo` still to be looked at: `queue` lists what has been taken out. */
  ghost predicate ListsTaken(st: Store, now: int, todo: set<Text>, queue: seq<nat>) {
    && (forall i :: 0 <= i < |queue| ==> st.IsExpired(now, queue[i]) && st.held[queue[i]].id !in todo)
    && (forall i, j :: 0 <= i < j < |queue| ==> queue[i] != queue[j])
    && (forall h: nat :: st.IsExpired(now, h) && st.held[h].id !in todo ==> h in queue)
  }

  lemma TakesOne(st: Store, now: int, todo: set<Text>, queue: seq<nat>, id: Text)
    requires st.Ok() && ListsTaken(st, now, todo, queue) && id in todo && id in st.entries
    requires st.held[st.entries[id]].deadline <= now
    ensures ListsTaken(st, now, todo - {id}, queue + [st.entries[id]])
  {
    var h := st.entries[id];
    forall g: nat | st.IsExpired(now, g) && st.held[g].id !in todo - {id} ensures g in queue + [h] {
      assert g == h || g in queue;
    }
  }

  lemma KeepsOne(st: Store, now: int, todo: set<Text>, queue: seq<nat>, id: Text)
    requires st.Ok() && ListsTaken(st, now, todo, queue) && id in todo && id in st.entries
    requires st.held[st.entries[id]].deadline > now
    ensures ListsTaken(st, now, todo - {id}, queue)
  {
  }

  // ----- undisturbed calls are runs -----

  lemma OneMore(s: State, step: Step, rest: seq<Step>) returns (steps: seq<Step>)
    requires s.store.Ok() && Enabled(s, step) && IsRun(Apply(s, step), rest)
    ensures steps == [step] + rest && IsRun(s, steps) && After(s, steps) == After(Apply(s, step), rest)
  {
    steps := [step] + rest;
    assert steps[1..] == rest;
  }

  lemma Kept(s: State, step: Step)
    requires UI.Inv(s) && Enabled(s, step)
    ensures UI.Inv(Apply(s, step)) && Apply(s, step).store.Ok()
  {
    UI.StepKeepsInv(s, step);
  }

  /** What the rest of the once does after the map. */
  function Ended(st: Store, h: nat, caller: Caller): Store
    requires h < |st.held|
  {
    var x := st.held[h];
    st.Set(h, x.(once := Finished, doneCloses := x.doneCloses + 1, bodyCloses := x.bodyCloses + 1,
                 cancels := if caller.ByCancel? then x.cancels + 1 else x.cancels))
  }

  /** What the once leaves behind. */
  function Settled(st: Store, h: nat, caller: Caller): Store
    requires h < |st.held|
  {
    Ended(st.Release(h), h, caller)
  }

  /** Inside the once, nothing else running. */
  lemma OnceIsARun(s: State, p: nat) returns (steps: seq<Step>)
    requires UI.Inv(s) && Enabled(s, Remove(p))
    ensures IsRun(s, steps) && UI.Inv(After(s, steps))
    ensures After(s, steps) == State(Settled(s.store, s.procs[p].queue[0], s.procs[p].caller), s.procs[p := Next(s.procs[p], true)])
  {
    Kept(s, Remove(p));
    steps := RestIsARun(Apply(s, Remove(p)), p);
    RemovedThenNext(s, p);
    steps := OneMore(s, Remove(p), steps);
  }

  lemma RemovedThenNext(s: State, p: nat)
    requires s.store.Ok() && Enabled(s, Remove(p))
    ensures var s1, c := Apply(s, Remove(p)), s.procs[p];
            && s1.procs[p].queue == c.queue && s1.procs[p].caller == c.caller && s1.store == s.store.Release(c.queue[0])
            && s1.procs[p := Next(s1.procs[p], true)] == s.procs[p := Next(c, true)]
  {
  }

  lemma RestIsARun(s: State, p: nat) returns (steps: seq<Step>)
    requires UI.Inv(s) && Enabled(s, Signal(p))
    ensures IsRun(s, steps) && UI.Inv(After(s, steps))
    ensures After(s, steps) == State(Ended(s.store, s.procs[p].queue[0], s.procs[p].caller), s.procs[p := Next(s.procs[p], true)])
  {
    var s1 := Apply(s, Signal(p));
    Kept(s, Signal(p));
    Kept(s1, CloseBody(p));
    steps := OneMore(s1, CloseBody(p), []);
    SignalThenNext(s, p);
    steps := OneMore(s, Signal(p), steps);
  }

  lemma SignalThenNext(s: State, p: nat)
    requires s.store.Ok() && Enabled(s, Signal(p)) && Apply(s, Signal(p)).store.Ok()
    ensures Apply(Apply(s, Signal(p)), CloseBody(p)) ==
            State(Ended(s.store, s.procs[p].queue[0], s.procs[p].caller), s.procs[p := Next(s.procs[p], true)])
  {
    var s1 := Apply(s, Signal(p));
    assert s1.procs[p := Next(s1.procs[p], true)] == s.procs[p := Next(s.procs[p], true)];
  }

  /** One terminate call. */
  lemma TerminationIsARun(s: State, p: nat) returns (steps: seq<Step>)
    requires UI.Inv(s) && Enabled(s, Enter(p))
    ensures IsRun(s, steps) && UI.Inv(After(s, steps))
    ensures var c := s.procs[p];
            var (st, done) := Terminated(s.store, c.queue[0], c.why, c.caller);
            After(s, steps) == State(st, s.procs[p := Next(c, done)])
  {
    Kept(s, Enter(p));
    if s.store.held[s.procs[p].queue[0]].once.Finished? {
      steps := OneMore(s, Enter(p), []);
    } else {
      steps := FirstTerminationIsARun(s, p);
    }
  }

  lemma FirstTerminationIsARun(s: State, p: nat) returns (steps: seq<Step>)
    requires UI.Inv(s) && Enabled(s, Enter(p)) && s.store.held[s.procs[p].queue[0]].once.Idle?
    ensures IsRun(s, steps) && UI.Inv(After(s, steps))
    ensures var c := s.procs[p];
            After(s, steps) == State(Terminated(s.store, c.queue[0], c.why, c.caller).0, s.procs[p := Next(c, true)])
  {
    var s1 := Apply(s, Enter(p));
    Kept(s, Enter(p));
    steps := OnceIsARun(s1, p);
    EnteredThenRun(s.store, s.procs[p].queue[0], s.procs[p].why, s.procs[p].caller);
    steps := OneMore(s, Enter(p), steps);
    assert s1.procs[p := Next(s1.procs[p], true)] == s.procs[p := Next(s.procs[p], true)];
  }

  /** Entering the once and running it is `Terminated`. */
  lemma EnteredThenRun(st: Store, h: nat, why: Option<Failure>, caller: Caller)
    requires st.Ok() && h < |st.held| && st.held[h].once.Idle?
    ensures Settled(st.Set(h, st.held[h].(once := Running, terminalErr := why)), h, caller) == Terminated(st, h, why, caller).0
  {
    var st1 := st.Set(h, st.held[h].(once := Running, terminalErr := why));
    assert st1.InMap(h) == st.InMap(h);
    assert Settled(st1, h, caller).held == Terminated(st, h, why, caller).0.held;
  }

  lemma CancelIsARun(s: State, p: nat, id: Text, why: Option<Failure>) returns (steps: seq<Step>)
    requires UI.Inv(s) && Quiet(s) && p < |s.procs|
    ensures IsRun(s, steps)
    ensures var (st, known) := CancelCall(s.store, id, why);
            After(s, steps) == State(st, s.procs[p := Ready(CancelAnswer(known))])
  {
    var step := Cancel(p, id, why);
    Kept(s, step);
    steps := [];
    if id in s.store.entries {
      NoneRunning(s, s.store.entries[id]);
      steps := TerminationIsARun(Apply(s, step), p);
    }
    steps := OneMore(s, step, steps);
  }

  lemma NoneRunning(s: State, h: nat)
    requires UI.Inv(s) && Quiet(s) && h < |s.store.held|
    ensures !s.store.held[h].once.Running?
  {
    assert UI.HeldOk(s, h);
    assert forall p :: !UI.RunBy(s, p, h);
  }

  lemma ClaimIsARun(s: State, p: nat, id: Text, token: Text, now: int) returns (steps: seq<Step>)
    requires UI.Inv(s) && Quiet(s) && p < |s.procs|
    ensures IsRun(s, steps)
    ensures var (st, r) := ClaimCall(s.store, id, token, now);
            After(s, steps) == State(st, s.procs[p := Ready(match r case Ok(h) => GotClaim(h) case Err(e) => Failed(e))])
  {
    var step := Claim(p, id, token, now);
    Kept(s, step);
    steps := [];
    if s.store.Admission(id, token, now).Stale? {
      NoneRunning(s, s.store.entries[id]);
      steps := TerminationIsARun(Apply(s, step), p);
    }
    steps := OneMore(s, step, steps);
  }

  lemma CloseIsARun(s: State, p: nat, h: nat, e: Option<Failure>) returns (steps: seq<Step>)
    requires UI.Inv(s) && Quiet(s) && Enabled(s, BeginClose(p, h, e))
    ensures IsRun(s, steps)
    ensures After(s, steps) == State(Terminated(s.store, h, e, ByClose).0, s.procs[p := Ready(Closed)])
  {
    var step := BeginClose(p, h, e);
    Kept(s, step);
    NoneRunning(s, h);
    steps := TerminationIsARun(Apply(s, step), p);
    steps := OneMore(s, step, steps);
  }

  lemma {:induction false} Then(s: State, first: seq<Step>, second: seq<Step>)
    requires IsRun(s, first) && IsRun(After(s, first), second)
    ensures IsRun(s, first + second) && After(s, first + second) == After(After(s, first), second)
    decreases |first|
  {
    if first == [] {
      assert first + second == second;
    } else {
      var s' := Apply(s, first[0]);
      Then(s', first[1..], second);
      var rest := OneMore(s, first[0], first[1..] + second);
      HeadOut(first, second);
    }
  }

  /** Every call but that of goroutine `p` has returned. */
  ghost predicate Alone(s: State, p: nat) {
    forall q :: 0 <= q < |s.procs| && q != p ==> s.procs[q].Ready?
  }

  lemma AloneMayEnter(s: State, p: nat)
    requires UI.Inv(s) && Alone(s, p) && p < |s.procs| && s.procs[p].Terminating? && s.procs[p].at.Entering?
    ensures Enabled(s, Enter(p))
  {
    assert UI.ProcOk(s, p);
    var h := s.procs[p].queue[0];
    assert UI.HeldOk(s, h);
    assert forall q :: !UI.RunBy(s, q, h);
  }

  /** The second loop of Expire: one termination after the other. */
  lemma {:induction false} QueueIsARun(s: State, p: nat) returns (steps: seq<Step>)
    requires UI.Inv(s) && Alone(s, p) && p < |s.procs| && s.procs[p].Terminating? && s.procs[p].at.Entering?
    requires s.procs[p].why == Some(Failure.Expired) && s.procs[p].caller.ByExpire? && s.procs[p].queue != []
    requires forall i :: 0 <= i < |s.procs[p].queue| ==> s.procs[p].queue[i] < |s.store.held|
    ensures IsRun(s, steps)
    ensures After(s, steps) == State(TerminateAll(s.store, s.procs[p].queue), s.procs[p := Ready(ExpireAnswer(s.procs[p].caller.count))])
    decreases |s.procs[p].queue|
  {
    AloneMayEnter(s, p);
    var c := s.procs[p];
    steps := TerminationIsARun(s, p);
    var s1 := After(s, steps);
    if |c.queue| == 1 {
      assert c.queue[1..] == [];
    } else {
      assert forall i :: 0 <= i < |c.queue[1..]| ==> c.queue[1..][i] == c.queue[i + 1];
      var rest := QueueIsARun(s1, p);
      Then(s, steps, rest);
      steps := steps + rest;
      assert s1.procs[p := Ready(ExpireAnswer(c.caller.count))] == s.procs[p := Ready(ExpireAnswer(c.caller.count))];
    }
  }

  lemma ExpireIsARun(s: State, p: nat, now: int, queue: seq<nat>) returns (steps: seq<Step>)
    requires UI.Inv(s) && Quiet(s) && Enabled(s, Expire(p, now, queue))
    ensures IsRun(s, steps)
    ensures After(s, steps) == State(TerminateAll(s.store.Expire(now), queue), s.procs[p := Ready(ExpireAnswer(|queue|))])
  {
    var step := Expire(p, now, queue);
    Kept(s, step);
    steps := [];
    if queue == [] {
      NothingExpired(s.store, now);
    } else {
      var s1 := Apply(s, step);
      steps := QueueIsARun(s1, p);
      assert s1.procs[p := Ready(ExpireAnswer(|queue|))] == s.procs[p := Ready(ExpireAnswer(|queue|))];
    }
    steps := OneMore(s, step, steps);
  }

  lemma NothingExpired(st: Store, now: int)
    requires st.Ok() && ListsExpired(st, now, [])
    ensures st.Expire(now) == st
  {
    forall id | id in st.entries ensures id in st.Expire(now).entries {
      assert !st.IsExpired(now, st.entries[id]);
    }
    assert st.Expire(now).entries == st.entries;
  }

  // ----- the objects -----

  class Entry {
    const id: Text
    const token: Text
    const deadline: int
    ghost const ix: nat
    var claims: nat
    var once: Once
    var terminalErr: Option<Failure>
    var doneCloses: nat
    var bodyCloses: nat
    ghost var watch: Watch
    ghost var ctxDone: bool
    ghost var cancels: nat

    ghost function View(): Source
      reads this
    {
      Source(id, token, deadline, watch, ctxDone, claims, once, terminalErr, doneCloses, bodyCloses, cancels)
    }

    constructor (id: Text, token: Text, deadline: int, watched: bool, ghost ix: nat)
      ensures this.id == id && this.ix == ix && View() == NewSource(id, token, deadline, watched)
    {
      this.id, this.token, this.deadline, this.ix := id, token, deadline, ix;
      claims, once, terminalErr, doneCloses, bodyCloses := 0, Idle, None, 0, 0;
      watch, ctxDone, cancels := if watched then Waiting else Unwatched, false, 0;
    }

    /** What the once guards, apart from the map. */
    method Settle(why: Option<Failure>, ghost caller: Caller)
      modifies this
      ensures View() == old(View()).(once := Finished, terminalErr := why, doneCloses := old(doneCloses) + 1,
                          bodyCloses := old(bodyCloses) + 1, cancels := if caller.ByCancel? then old(cancels) + 1 else old(cancels))
    {
      terminalErr := why;
      doneCloses := doneCloses + 1;
      bodyCloses := bodyCloses + 1;
      cancels := if caller.ByCancel? then cancels + 1 else cancels;
      once := Finished;
    }
  }

  class Registry {
    var entries: map<Text, Entry>
    ghost var all: seq<Entry>

    ghost predicate Shape()
      reads this
    {
      && (forall i :: 0 <= i < |all| ==> all[i].ix == i)
      && (forall id <- entries :: entries[id].ix < |all| && all[entries[id].ix] == entries[id] && entries[id].id == id)
    }

    ghost predicate Represents(st: Store)
      reads this, all
    {
      && Shape() && st.Ok() && |st.held| == |all|
      && (forall i :: 0 <= i < |all| ==> st.held[i] == all[i].View())
      && st.entries.Keys == entries.Keys
      && (forall id <- entries :: st.entries[id] == entries[id].ix)
    }

    constructor ()
      ensures Represents(Store(map[], [])) && all == []
    {
      entries, all := map[], [];
    }

    lemma Assemble(st: Store, st': Store, i: nat)
      requires i < |all| == |st.held| && Differs(st, st', i)
      requires forall j :: 0 <= j < |all| && j != i ==> all[j].View() == st.held[j]
      requires st'.held[i] == all[i].View()
      requires st'.entries.Keys == entries.Keys && forall id <- entries :: st'.entries[id] == entries[id].ix
      ensures Shape() ==> Represents(st')
    {
    }

    /** Register, in the order of its checks. */
    method Register(o: Offer, now: int, ghost st: Store) returns (e: Option<Failure>)
      requires Represents(st)
      modifies this
      ensures e == if Objection(o, now).Some? then Objection(o, now) else if o.ctx == Some(true) then Some(Canceled)
                   else if o.id in st.entries then Some(AlreadyExists) else None
      ensures Represents(if e.None? then st.Register(o.id, o.token, o.deadline.value, o.ctx.Some?) else st)
    {
      if Objection(o, now).Some? { return Objection(o, now); }
      if o.ctx == Some(true) { return Some(Canceled); }
      if o.id in entries { return Some(AlreadyExists); }
      Insert(o.id, o.token, o.deadline.value, o.ctx.Some?, st);
      e := None;
    }

    method Insert(id: Text, token: Text, deadline: int, watched: bool, ghost st: Store)
      requires Represents(st)
      modifies this
      ensures Represents(st.Register(id, token, deadline, watched))
    {
      var entry := new Entry(id, token, deadline, watched, |all|);
      RegisterOk(st, id, token, deadline, watched);
      entries := entries[id := entry];
      all := all + [entry];
      assert forall i :: 0 <= i < |st.held| ==> all[i].View() == st.held[i];
      AssembleNew(st, st.Register(id, token, deadline, watched));
    }

    /** One source more. */
    lemma AssembleNew(st: Store, st': Store)
      requires Shape() && |all| == |st.held| + 1 == |st'.held| && st'.Ok()
      requires forall i :: 0 <= i < |st.held| ==> all[i].View() == st.held[i] == st'.held[i]
      requires st'.held[|st.held|] == all[|st.held|].View()
      requires st'.entries.Keys == entries.Keys && forall id <- entries :: st'.entries[id] == entries[id].ix
      ensures Represents(st')
    {
    }

    /** terminate compares identities before it deletes: it finds the entry exactly when the source is in the map. */
    lemma Current(entry: Entry, st: Store)
      requires Represents(st) && entry.ix < |all| && all[entry.ix] == entry
      ensures entry.id in entries && entries[entry.id] == entry <==> st.InMap(entry.ix)
      ensures entry.View() == st.held[entry.ix]
    {
    }

    /** terminate: the first call does it, and takes out of the map only this very entry. */
    method Terminate(entry: Entry, why: Option<Failure>, ghost caller: Caller, ghost st: Store) returns (terminated: bool)
      requires Represents(st) && entry.ix < |all| && all[entry.ix] == entry
      modifies this`entries, entry
      ensures Represents(Terminated(st, entry.ix, why, caller).0) && terminated == Terminated(st, entry.ix, why, caller).1
    {
      Current(entry, st);
      terminated := entry.once.Idle?;
      if terminated {
        TerminatedOk(st, entry.ix, why, caller);
        Finish(entry, why, caller, st, Terminated(st, entry.ix, why, caller).0);
      }
    }

    method Finish(entry: Entry, why: Option<Failure>, ghost caller: Caller, ghost st: Store, ghost st': Store)
      requires Represents(st) && entry.ix < |all| && all[entry.ix] == entry && Differs(st, st', entry.ix)
      requires st'.entries == st.Release(entry.ix).entries
      requires st'.held[entry.ix] ==
        entry.View().(once := Finished, terminalErr := why, doneCloses := entry.doneCloses + 1, bodyCloses := entry.bodyCloses + 1,
                      cancels := if caller.ByCancel? then entry.cancels + 1 else entry.cancels)
      modifies this`entries, entry
      ensures Represents(st')
    {
      Release(entry, st);
      entry.Settle(why, caller);
      Assemble(st.Release(entry.ix), st', entry.ix);
    }

    /** Out of the map, if it is this very entry that is there. */
    method Release(entry: Entry, ghost st: Store)
      requires Represents(st) && entry.ix < |all| && all[entry.ix] == entry
      modifies this`entries
      ensures all == old(all) && Represents(st.Release(entry.ix))
    {
      Current(entry, st);
      if entry.id in entries && entries[entry.id] == entry {
        entries := entries - {entry.id};
      }
    }

    /** Out of the map, by id. */
    method Detach(id: Text, ghost st: Store) returns (entry: Entry)
      requires Represents(st) && id in entries
      modifies this`entries
      ensures all == old(all) && entry.ix == st.entries[id] < |all| && all[entry.ix] == entry
      ensures Represents(st.Drop(id))
    {
      entry := entries[id];
      entries := entries - {id};
    }

    /** Out of the map, then terminated. */
    method Retire(id: Text, why: Failure, ghost caller: Caller, ghost st: Store) returns (terminated: bool)
      requires Represents(st) && id in st.entries
      modifies this`entries, all
      ensures all == old(all)
      ensures Represents(Terminated(st.Drop(id), st.entries[id], Some(why), caller).0)
      ensures terminated == Terminated(st.Drop(id), st.entries[id], Some(why), caller).1
    {
      var entry := Detach(id, st);
      terminated := Terminate(entry, Some(why), caller, st.Drop(id));
    }

    method Cancel(id: Text, why: Option<Failure>, ghost st: Store) returns (known: bool)
      requires Represents(st)
      modifies this`entries, all
      ensures Represents(CancelCall(st, id, why).0) && known == CancelCall(st, id, why).1
    {
      if id !in entries { return false; }
      known := Retire(id, if why.Some? then why.value else Canceled, ByCancel, st);
    }

    method Claim(id: Text, token: Text, now: int, ghost st: Store) returns (entry: Entry?, e: Option<Failure>)
      requires Represents(st)
      modifies this`entries, all
      ensures Represents(ClaimCall(st, id, token, now).0)
      ensures match ClaimCall(st, id, token, now).1
              case Ok(h) => e.None? && h < |all| && entry == all[h]
              case Err(f) => e == Some(f) && entry == null
    {
      entry := null;
      ghost var st' := ClaimCall(st, id, token, now).0;
      ClaimOk(st, id, token, now);
      if id !in entries { return null, Some(NotFound); }
      var x := entries[id];
      Current(x, st);
      if x.deadline <= now {
        var _ := Retire(id, Failure.Expired, ByClaim, st);
        e := Some(Failure.Expired);
      } else if x.claims > 0 {
        e := Some(Replayed);
      } else if x.token != token {
        e := Some(InvalidToken);
      } else {
        Grant(x, st, st');
        entry, e := x, None;
      }
    }

    method Grant(x: Entry, ghost st: Store, ghost st': Store)
      requires Represents(st) && x.ix < |all| && all[x.ix] == x && Differs(st, st', x.ix) && st'.entries == st.entries
      requires st'.held[x.ix] == st.held[x.ix].(claims := st.held[x.ix].claims + 1)
      modifies x
      ensures Represents(st')
    {
      x.claims := x.claims + 1;
      Assemble(st, st', x.ix);
    }

    /** What Expire has taken out of the map: sources of `st`, as entries and as numbers. */
    ghost predicate Lists(expired: seq<Entry>, queue: seq<nat>)
      reads this
    {
      |expired| == |queue| && forall k :: 0 <= k < |queue| ==> queue[k] < |all| && all[queue[k]] == expired[k]
    }

    /** The map in the middle of Expire's first loop. */
    ghost predicate MidSweep(st: Store, now: int, todo: set<Text>)
      reads this, all
    {
      && Shape() && st.Ok() && |st.held| == |all| && todo <= entries.Keys <= st.entries.Keys
      && (forall i :: 0 <= i < |all| ==> st.held[i] == all[i].View())
      && (forall id <- entries :: st.entries[id] == entries[id].ix)
      && (forall id <- st.entries :: id in entries <==> id in todo || st.held[st.entries[id]].deadline > now)
    }

    /** One round of it. */
    method SweepOne(id: Text, now: int, expired: seq<Entry>, ghost st: Store, ghost todo: set<Text>, ghost queue: seq<nat>)
      returns (expired': seq<Entry>, ghost queue': seq<nat>)
      requires MidSweep(st, now, todo) && id in todo && Lists(expired, queue) && ListsTaken(st, now, todo, queue)
      modifies this`entries
      ensures MidSweep(st, now, todo - {id}) && Lists(expired', queue') && ListsTaken(st, now, todo - {id}, queue')
    {
      var entry := EntryOf(id, now, st, todo);
      if entry.deadline <= now {
        TakesOne(st, now, todo, queue, id);
        Take(id, now, st, todo);
        ListsOneMore(expired, queue, entry);
        expired', queue' := expired + [entry], queue + [entry.ix];
      } else {
        KeepsOne(st, now, todo, queue, id);
        StillMidSweep(st, now, todo, id);
        expired', queue' := expired, queue;
      }
    }

    method EntryOf(id: Text, now: int, ghost st: Store, ghost todo: set<Text>) returns (entry: Entry)
      requires MidSweep(st, now, todo) && id in todo
      ensures id in entries && entry == entries[id] && id in st.entries && entry.ix == st.entries[id] < |all| && all[entry.ix] == entry
      ensures entry.deadline == st.held[entry.ix].deadline
    {
      entry := entries[id];
      assert st.held[entry.ix] == entry.View();
    }

    lemma ListsOneMore(expired: seq<Entry>, queue: seq<nat>, entry: Entry)
      requires Lists(expired, queue) && entry.ix < |all| && all[entry.ix] == entry
      ensures Lists(expired + [entry], queue + [entry.ix])
    {
    }

    lemma StillMidSweep(st: Store, now: int, todo: set<Text>, id: Text)
      requires MidSweep(st, now, todo) && id in todo && st.held[st.entries[id]].deadline > now
      ensures MidSweep(st, now, todo - {id})
    {
    }

    method Take(id: Text, now: int, ghost st: Store, ghost todo: set<Text>)
      requires MidSweep(st, now, todo) && id in todo && entries[id].deadline <= now
      modifies this`entries
      ensures all == old(all) && MidSweep(st, now, todo - {id})
    {
      assert st.held[entries[id].ix] == entries[id].View();
      entries := entries - {id};
    }

    /** The first loop of Expire, under the lock. */
    method Sweep(now: int, ghost st: Store) returns (expired: seq<Entry>, ghost queue: seq<nat>)
      requires Represents(st)
      modifies this`entries
      ensures Represents(st.Expire(now)) && Lists(expired, queue) && ListsExpired(st, now, queue)
    {
      var todo := entries.Keys;
      expired, queue := [], [];
      while todo != {}
        invariant MidSweep(st, now, todo) && Lists(expired, queue) && ListsTaken(st, now, todo, queue)
        decreases todo
      {
        var id :| id in todo;
        expired, queue := SweepOne(id, now, expired, st, todo, queue);
        todo := todo - {id};
      }
      Swept(st, now);
    }

    lemma Swept(st: Store, now: int)
      requires MidSweep(st, now, {})
      ensures Represents(st.Expire(now))
    {
      UI.ExpireOk(st, now);
      assert st.Expire(now).entries.Keys == entries.Keys;
    }

    /** Expire. */
    method Expire(now: int, ghost st: Store) returns (count: nat, ghost queue: seq<nat>)
      requires Represents(st)
      modifies this`entries, all
      ensures ListsExpired(st, now, queue) && count == |queue| && Represents(TerminateAll(st.Expire(now), queue))
    {
      var expired;
      expired, queue := Sweep(now, st);
      TerminateEach(expired, queue, st.Expire(now));
      count := |expired|;
    }

    /** The second loop of Expire, for the entries that the first took out. */
    method TerminateEach(expired: seq<Entry>, ghost queue: seq<nat>, ghost st: Store)
      requires Represents(st) && |expired| == |queue|
      requires forall k :: 0 <= k < |queue| ==> queue[k] < |all| && all[queue[k]] == expired[k]
      modifies this`entries, all
      ensures Represents(TerminateAll(st, queue)) && all == old(all)
    {
      ghost var cur := st;
      for k := 0 to |expired|
        invariant all == old(all) && Represents(cur) && TerminateAll(cur, queue[k..]) == TerminateAll(st, queue)
      {
        var _ := Terminate(expired[k], Some(Failure.Expired), ByExpire(0), cur);
        cur := Terminated(cur, queue[k], Some(Failure.Expired), ByExpire(0)).0;
        assert queue[k..][1..] == queue[k + 1..];
      }
    }
  }
}
