/** The upload-source registry (internal/uploadsource/registry.go) as a step relation.

    One atomic step is one lock region, or one effect of the once-guarded body of `terminate`.  The mutex
    is never held across steps; the once of an entry is, and a second caller waits for it. */
module UploadSources {
  import opened Octets

  datatype Failure = AlreadyExists | InvalidSource | Expired | Canceled | NotFound | Replayed | InvalidToken | ContextDone | Other(code: nat)

  datatype Once = Idle | Running | Finished

  datatype Watch = Unwatched | Waiting | Returned

  /** One registered source.  The counters record what has happened to it: claims handed out, closings of
      the done channel and of the body, and Cancel calls that answered true for it. */
  datatype Source = Source(
      id: Text, token: Text, deadline: int, watch: Watch, ctxDone: bool,
      claims: nat, once: Once, terminalErr: Option<Failure>,
      doneCloses: nat, bodyCloses: nat, cancels: nat)
  {
    predicate Claimed() {
      claims > 0
    }
  }

  function NewSource(id: Text, token: Text, deadline: int, watched: bool): Source {
    Source(id, token, deadline, if watched then Waiting else Unwatched, false, 0, Idle, None, 0, 0, 0)
  }

  datatype Admission = Missing | Stale(h: nat) | Refused(e: Failure) | Granted(h: nat)

  datatype Store = Store(entries: map<Text, nat>, held: seq<Source>)
  {
    ghost predicate Ok() {
      forall id <- entries :: entries[id] < |held| && held[entries[id]].id == id
    }

    predicate InMap(h: nat) {
      h < |held| && held[h].id in entries && entries[held[h].id] == h
    }

    function Drop(id: Text): Store {
      this.(entries := entries - {id})
    }

    function Set(h: nat, x: Source): Store
      requires h < |held|
    {
      this.(held := held[h := x])
    }

    function Register(id: Text, token: Text, deadline: int, watched: bool): Store {
      Store(entries[id := |held|], held + [NewSource(id, token, deadline, watched)])
    }

    /** The lock region of Claim. */
    function Admission(id: Text, token: Text, now: int): Admission
      requires Ok()
    {
      if id !in entries then Missing
      else if held[entries[id]].deadline <= now then Stale(entries[id])
      else if held[entries[id]].Claimed() then Refused(Replayed)
      else if held[entries[id]].token != token then Refused(InvalidToken)
      else Granted(entries[id])
    }

    function Admit(id: Text, token: Text, now: int): Store
      requires Ok()
    {
      match Admission(id, token, now)
      case Stale(_) => Drop(id)
      case Granted(h) => Set(h, held[h].(claims := held[h].claims + 1))
      case _ => this
    }

    predicate IsExpired(now: int, h: nat) {
      InMap(h) && held[h].deadline <= now
    }

    /** The lock region of Expire. */
    function Expire(now: int): Store
      requires Ok()
    {
      this.(entries := map id | id in entries && held[entries[id]].deadline > now :: entries[id])
    }

    /** The lock region of terminate: only this very source leaves the map. */
    function Release(h: nat): Store
      requires h < |held|
    {
      if InMap(h) then Drop(held[h].id) else this
    }
  }

  datatype Answer =
    | Nothing | GotClaim(h: nat) | Failed(e: Failure) | CancelAnswer(known: bool) | ExpireAnswer(count: nat) | Closed

  datatype Caller = ByClaim | ByCancel | ByExpire(count: nat) | ByClose

  function Reply(caller: Caller, terminated: bool): Answer {
    match caller
    case ByClaim => Failed(Expired)
    case ByCancel => CancelAnswer(terminated)
    case ByExpire(n) => ExpireAnswer(n)
    case ByClose => Closed
  }

  datatype At = Entering | Removing | Signalling | Closing

  datatype Call =
    | Ready(answer: Answer)
    | Terminating(queue: seq<nat>, why: Option<Failure>, caller: Caller, at: At)

  datatype State = State(store: Store, procs: seq<Call>)
  {
    function To(p: nat, c: Call): State
      requires p < |procs|
    {
      this.(procs := procs[p := c])
    }

    function With(st: Store): State {
      this.(store := st)
    }
  }

  const Init := State(Store(map[], []), [])

  datatype Step =
    | Spawn
    | Register(id: Text, token: Text, deadline: int, watched: bool, now: int)
    | Claim(p: nat, id: Text, token: Text, now: int)
    | BeginClose(p: nat, h: nat, e: Option<Failure>)
    | Cancel(p: nat, id: Text, why: Option<Failure>)
    | Expire(p: nat, now: int, queue: seq<nat>)
    | CtxDone(h: nat)
    | WatchFires(p: nat, h: nat) | WatchEnds(h: nat)
    | Enter(p: nat) | Remove(p: nat) | Signal(p: nat) | CloseBody(p: nat)

  predicate Free(s: State, p: nat) {
    p < |s.procs| && s.procs[p].Ready?
  }

  predicate IsAt(s: State, p: nat, at: At) {
    p < |s.procs| && s.procs[p].Terminating? && s.procs[p].queue != [] && s.procs[p].at == at && s.procs[p].queue[0] < |s.store.held|
  }

  ghost predicate ListsExpired(st: Store, now: int, queue: seq<nat>) {
    && (forall i :: 0 <= i < |queue| ==> st.IsExpired(now, queue[i]))
    && (forall i, j :: 0 <= i < j < |queue| ==> queue[i] != queue[j])
    && (forall h: nat :: st.IsExpired(now, h) ==> h in queue)
  }

  ghost predicate Enabled(s: State, step: Step) {
    match step
    case Spawn => true
    case Register(id, _, deadline, _, now) => id !in s.store.entries && deadline > now
    case Claim(p, _, _, _) => Free(s, p)
    case BeginClose(p, h, _) => Free(s, p) && h < |s.store.held| && s.store.held[h].Claimed()
    case Cancel(p, _, _) => Free(s, p)
    case Expire(p, now, queue) => Free(s, p) && ListsExpired(s.store, now, queue)
    case CtxDone(h) => h < |s.store.held|
    case WatchFires(p, h) => Free(s, p) && h < |s.store.held| && s.store.held[h].watch.Waiting? && s.store.held[h].ctxDone
    case WatchEnds(h) => h < |s.store.held| && s.store.held[h].watch.Waiting? && s.store.held[h].doneCloses > 0
    case Enter(p) => IsAt(s, p, Entering) && !s.store.held[s.procs[p].queue[0]].once.Running?
    case Remove(p) => IsAt(s, p, Removing)
    case Signal(p) => IsAt(s, p, Signalling)
    case CloseBody(p) => IsAt(s, p, Closing)
  }

  /** The terminating call goes on to its next source, or returns. */
  function Next(c: Call, terminated: bool): Call
    requires c.Terminating? && c.queue != []
  {
    if |c.queue| == 1 then Ready(Reply(c.caller, terminated)) else c.(queue := c.queue[1..], at := Entering)
  }

  /** The lock region of Cancel. */
  function Detach(s: State, p: nat, id: Text, why: Failure): State
    requires p < |s.procs|
  {
    if id !in s.store.entries then s.To(p, Ready(CancelAnswer(false)))
    else s.With(s.store.Drop(id)).To(p, Terminating([s.store.entries[id]], Some(why), ByCancel, Entering))
  }

  ghost function Apply(s: State, step: Step): State
    requires s.store.Ok() && Enabled(s, step)
  {
    var st := s.store;
    match step
    case Spawn => s.(procs := s.procs + [Ready(Nothing)])
    case Register(id, token, deadline, watched, _) => s.With(st.Register(id, token, deadline, watched))
    case Claim(p, id, token, now) =>
      (var s' := s.With(st.Admit(id, token, now));
       match st.Admission(id, token, now)
       case Missing => s'.To(p, Ready(Failed(NotFound)))
       case Stale(h) => s'.To(p, Terminating([h], Some(Failure.Expired), ByClaim, Entering))
       case Refused(e) => s'.To(p, Ready(Failed(e)))
       case Granted(h) => s'.To(p, Ready(GotClaim(h))))
    case BeginClose(p, h, e) => s.To(p, Terminating([h], e, ByClose, Entering))
    case Cancel(p, id, why) => Detach(s, p, id, if why.Some? then why.value else Canceled)
    case Expire(p, now, queue) =>
      (if queue == [] then s.To(p, Ready(ExpireAnswer(0)))
       else s.With(st.Expire(now)).To(p, Terminating(queue, Some(Failure.Expired), ByExpire(|queue|), Entering)))
    case CtxDone(h) => s.With(st.Set(h, st.held[h].(ctxDone := true)))
    case WatchFires(p, h) => Detach(s.With(st.Set(h, st.held[h].(watch := Returned))), p, st.held[h].id, ContextDone)
    case WatchEnds(h) => s.With(st.Set(h, st.held[h].(watch := Returned)))
    case Enter(p) =>
      (var c := s.procs[p];
       var x := st.held[c.queue[0]];
       if x.once.Finished? then s.To(p, Next(c, false))
       else s.With(st.Set(c.queue[0], x.(once := Running, terminalErr := c.why))).To(p, c.(at := Removing)))
    case Remove(p) => s.With(st.Release(s.procs[p].queue[0])).To(p, s.procs[p].(at := Signalling))
    case Signal(p) =>
      (var h := s.procs[p].queue[0];
       s.With(st.Set(h, st.held[h].(doneCloses := st.held[h].doneCloses + 1))).To(p, s.procs[p].(at := Closing)))
    case CloseBody(p) =>
      (var c := s.procs[p];
       var h := c.queue[0];
       var x := st.held[h].(bodyCloses := st.held[h].bodyCloses + 1, once := Finished);
       s.With(st.Set(h, if c.caller.ByCancel? then x.(cancels := x.cancels + 1) else x)).To(p, Next(c, true)))
  }
}
