/** The held-request protocol as a step relation.

    One atomic step is one lock region (or one write to the public response) of
    internal/pending/registry.go and cmd/edge-gateway/response_sink.go.  Everything a scheduler,
    a clock or the outside world decides is a label of the step, so a run is a sequence of steps
    and `Apply` is a function. */
module HeldRequests {
  import opened Octets

  datatype Failure =
    | AlreadyExists | InvalidRequest | NotFound | Expired | Canceled | Replayed | InvalidToken
    | ClosedPipe | UnexpectedEOF | ShortWrite | ContextDone | WriterFailed | Other(code: nat)

  /** responseSink.  `starts`, `closes` and `handed` record what has been done to the target so far:
      calls of Start, closings of the done channel, and bytes given to the response writer. */
  datatype Sink = Sink(
      head: bool, ctx: Option<Failure>,
      started: bool, completed: bool, err: Option<Failure>,
      starts: nat, closes: nat, handed: Text)
  {
    function CompletionError(): Failure {
      if err.Some? then err.value else ClosedPipe
    }

    /** complete: the first completion wins. */
    function Complete(e: Option<Failure>): Sink {
      if completed then this else this.(completed := true, err := e, closes := closes + 1)
    }

    /** The locked part of Start. */
    function Start(): Sink {
      if completed || ctx.Some? then this else this.(started := true)
    }

    function StartError(): Option<Failure> {
      if completed then Some(CompletionError()) else ctx
    }
  }

  function NewSink(head: bool): Sink {
    Sink(head, None, false, false, None, 0, 0, [])
  }

  datatype Once = Idle | Running | Finished

  /** IngestStream, without its references. */
  datatype Stream = Stream(done: bool, err: Option<Failure>, once: Once)
  {
    function Poison(e: Failure): Stream {
      if err.None? then this.(err := Some(e)) else this
    }

    /** What Write answers before it touches the target, if anything. */
    function Refusal(): Option<Failure> {
      if err.Some? then err else if done then Some(ClosedPipe) else None
    }
  }

  const NewStream := Stream(false, None, Idle)

  /** One registered request together with its target. */
  datatype Held = Held(
      id: Text, token: Text, deadline: int,
      claimed: bool, stream: Option<Stream>, err: Option<Failure>, sink: Sink)
  {
    function CurrentError(now: int): Option<Failure> {
      if err.Some? then err else if deadline <= now then Some(Expired) else None
    }
  }

  datatype Admission = Missing | Stale(h: nat, e: Failure) | Refused(e: Failure) | Claimed(h: nat)

  /** The registry map and every request ever registered, numbered in the order of registration. */
  datatype Store = Store(entries: map<Text, nat>, held: seq<Held>)
  {
    ghost predicate Ok() {
      forall id <- entries :: entries[id] < |held| && held[entries[id]].id == id
    }

    predicate InMap(h: nat) {
      h < |held| && held[h].id in entries && entries[held[h].id] == h
    }

    function Drop(id: Text): Store {
      this.(entries := entries - {id})
    }

    function Set(h: nat, x: Held): Store
      requires h < |held|
    {
      this.(held := held[h := x])
    }

    function Register(id: Text, token: Text, deadline: int, head: bool): Store {
      Store(entries[id := |held|], held + [Held(id, token, deadline, false, None, None, NewSink(head))])
    }

    /** The first lock region of StartIngest, up to the call of target.Start. */
    function Admission(id: Text, token: Text, now: int): Admission
      requires Ok()
    {
      if id !in entries then Missing
      else
        var h := entries[id];
        if held[h].CurrentError(now).Some? then Stale(h, held[h].CurrentError(now).value)
        else if held[h].claimed then Refused(Replayed)
        else if held[h].token != token then Refused(InvalidToken)
        else Claimed(h)
    }

    function Admit(id: Text, token: Text, now: int): Store
      requires Ok()
    {
      match Admission(id, token, now)
      case Stale(_, _) => Drop(id)
      case Claimed(h) => Set(h, held[h].(claimed := true))
      case _ => this
    }

    /** The rest of that region, after target.Start answered. */
    function Commit(h: nat, e: Option<Failure>): Store
      requires h < |held|
    {
      if e.Some? then Drop(held[h].id) else Set(h, held[h].(stream := Some(NewStream)))
    }

    /** The lock region of Cancel for an id that is present. */
    function Detach(id: Text, e: Failure): Store
      requires Ok() && id in entries
    {
      Drop(id).Set(entries[id], held[entries[id]].(err := Some(e)))
    }

    predicate IsExpired(now: int, h: nat) {
      InMap(h) && held[h].deadline <= now
    }

    /** The lock region of Expire. */
    function Expire(now: int): Store
      requires Ok()
    {
      Store(map id | id in entries && held[entries[id]].deadline > now :: entries[id],
            seq(|held|, h requires 0 <= h < |held| =>
              if IsExpired(now, h) then held[h].(err := Some(Failure.Expired)) else held[h]))
    }

    function Poison(h: nat, e: Failure): Store
      requires h < |held|
    {
      if held[h].stream.Some? then Set(h, held[h].(stream := Some(held[h].stream.value.Poison(e)))) else this
    }

    function SetSink(h: nat, x: Sink): Store
      requires h < |held|
    {
      Set(h, held[h].(sink := x))
    }

    function Complete(h: nat, e: Option<Failure>): Store
      requires h < |held|
    {
      SetSink(h, held[h].sink.Complete(e))
    }

    function SetStream(h: nat, x: Stream): Store
      requires h < |held|
    {
      Set(h, held[h].(stream := Some(x)))
    }

    function Put(h: nat, p: Text): Store
      requires h < |held|
    {
      SetSink(h, held[h].sink.(handed := held[h].sink.handed + p))
    }
  }

  datatype Answer =
    | Nothing | GotStream(h: nat) | Failed(e: Failure)
    | Wrote(n: nat, werr: Option<Failure>) | Closed(cerr: Option<Failure>)
    | CancelAnswer(known: bool) | ExpireAnswer(count: nat)

  datatype WriteAt = Probing | Locking | Putting | Settling(n: nat) | Rechecking(n: nat)
  datatype CloseAt = Marking | Finishing | Removing(answer: Option<Failure>)

  /** What one goroutine is in the middle of.  `Notifying` is the tail of StartIngest, Cancel and
      Expire: targets already taken out of the map that are still to be told. */
  datatype Call =
    | Ready(answer: Answer)
    | StartProbe(h: nat) | StartLock(h: nat) | StartCommit(h: nat, e: Option<Failure>)
    | Writing(h: nat, p: Text, late: bool, at: WriteAt)
    | Closing(h: nat, e: Option<Failure>, cat: CloseAt)
    | Notifying(queue: seq<nat>, why: Failure, poisoned: bool, reply: Answer)

  predicate Starting(c: Call) {
    c.StartProbe? || c.StartLock? || c.StartCommit?
  }

  /** `mu` names the goroutine that holds the registry mutex between two steps. */
  datatype State = State(mu: Option<nat>, store: Store, procs: seq<Call>)
  {
    function To(p: nat, c: Call): State
      requires p < |procs|
    {
      this.(procs := procs[p := c])
    }

    function With(st: Store): State {
      this.(store := st)
    }
  }

  const Init := State(None, Store(map[], []), [])

  datatype Step =
    | Spawn
    | Register(id: Text, token: Text, deadline: int, head: bool, now: int)
    | StartIngest(p: nat, id: Text, token: Text, now: int)
    | Probe(p: nat) | Lock(p: nat) | Commit(p: nat)
    | BeginWrite(p: nat, h: nat, data: Text)
    | WriteProbe(p: nat) | WriteLock(p: nat) | WritePut(p: nat, n: nat, fails: bool)
    | WriteSettle(p: nat, flushFails: bool) | WriteRecheck(p: nat)
    | BeginClose(p: nat, h: nat, e: Option<Failure>)
    | CloseMark(p: nat) | CloseFinish(p: nat) | CloseRemove(p: nat)
    | Cancel(p: nat, id: Text, why: Option<Failure>)
    | Expire(p: nat, now: int, queue: seq<nat>)
    | Poison(p: nat) | Tell(p: nat)
    | CtxDone(h: nat)

  predicate Free(s: State, p: nat) {
    p < |s.procs| && s.procs[p].Ready?
  }

  predicate HasStream(s: State, h: nat) {
    h < |s.store.held| && s.store.held[h].stream.Some?
  }

  /** `queue` lists exactly the expired entries, each once, in whatever order the map was walked. */
  ghost predicate ListsExpired(st: Store, now: int, queue: seq<nat>) {
    && (forall i :: 0 <= i < |queue| ==> st.IsExpired(now, queue[i]))
    && (forall i, j :: 0 <= i < j < |queue| ==> queue[i] != queue[j])
    && (forall h: nat :: st.IsExpired(now, h) ==> h in queue)
  }

  ghost predicate Enabled(s: State, step: Step) {
    match step
    case Spawn => true
    case Register(id, _, deadline, _, now) => s.mu.None? && id !in s.store.entries && deadline > now
    case StartIngest(p, _, _, _) => s.mu.None? && Free(s, p)
    case Probe(p) => p < |s.procs| && s.procs[p].StartProbe?
    case Lock(p) => p < |s.procs| && s.procs[p].StartLock?
    case Commit(p) => p < |s.procs| && s.procs[p].StartCommit?
    case BeginWrite(p, h, _) => Free(s, p) && HasStream(s, h)
    case WriteProbe(p) => p < |s.procs| && s.procs[p].Writing? && s.procs[p].at.Probing?
    case WriteLock(p) => p < |s.procs| && s.procs[p].Writing? && s.procs[p].at.Locking?
    case WritePut(p, n, _) => p < |s.procs| && s.procs[p].Writing? && s.procs[p].at.Putting? && n <= |s.procs[p].p|
    case WriteSettle(p, _) => p < |s.procs| && s.procs[p].Writing? && s.procs[p].at.Settling?
    case WriteRecheck(p) => p < |s.procs| && s.procs[p].Writing? && s.procs[p].at.Rechecking?
    case BeginClose(p, h, _) => Free(s, p) && HasStream(s, h) && !s.store.held[h].stream.value.once.Running?
    case CloseMark(p) => p < |s.procs| && s.procs[p].Closing? && s.procs[p].cat.Marking?
    case CloseFinish(p) => p < |s.procs| && s.procs[p].Closing? && s.procs[p].cat.Finishing?
    case CloseRemove(p) => s.mu.None? && p < |s.procs| && s.procs[p].Closing? && s.procs[p].cat.Removing?
    case Cancel(p, _, _) => s.mu.None? && Free(s, p)
    case Expire(p, now, queue) => s.mu.None? && Free(s, p) && ListsExpired(s.store, now, queue)
    case Poison(p) => p < |s.procs| && s.procs[p].Notifying? && !s.procs[p].poisoned && s.procs[p].queue != []
    case Tell(p) => p < |s.procs| && s.procs[p].Notifying? && s.procs[p].poisoned && s.procs[p].queue != []
    case CtxDone(h) => h < |s.store.held|
  }

  /** The indices that the goroutines carry are indices of registered requests. */
  ghost predicate CallOk(st: Store, c: Call) {
    match c
    case Ready(_) => true
    case StartProbe(h) => h < |st.held|
    case StartLock(h) => h < |st.held|
    case StartCommit(h, _) => h < |st.held|
    case Writing(h, p, _, at) =>
      && h < |st.held| && st.held[h].stream.Some?
      && (at.Settling? ==> at.n <= |p|) && (at.Rechecking? ==> at.n <= |p|)
    case Closing(h, _, _) => h < |st.held| && st.held[h].stream.Some?
    case Notifying(queue, _, _, _) => forall i :: 0 <= i < |queue| ==> queue[i] < |st.held|
  }

  ghost predicate Typed(s: State) {
    s.store.Ok() && forall p :: 0 <= p < |s.procs| ==> CallOk(s.store, s.procs[p])
  }

  function CancelReason(why: Option<Failure>): Failure {
    if why.Some? then why.value else Canceled
  }

  /** StartIngest up to the call of target.Start. */
  function Admitted(s: State, p: nat, id: Text, token: Text, now: int): State
    requires s.store.Ok() && p < |s.procs|
  {
    var s' := s.With(s.store.Admit(id, token, now));
    match s.store.Admission(id, token, now)
    case Missing => s'.To(p, Ready(Failed(NotFound)))
    case Stale(h, e) => s'.To(p, Notifying([h], e, true, Failed(e)))
    case Refused(e) => s'.To(p, Ready(Failed(e)))
    case Claimed(h) => s'.To(p, StartProbe(h)).(mu := Some(p))
  }

  ghost function Apply(s: State, step: Step): State
    requires Typed(s) && Enabled(s, step)
  {
    var st := s.store;
    match step
    case Spawn => s.(procs := s.procs + [Ready(Nothing)])
    case Register(id, token, deadline, head, _) => s.With(st.Register(id, token, deadline, head))
    case StartIngest(p, id, token, now) => Admitted(s, p, id, token, now)
    case Probe(p) =>
      (var h := s.procs[p].h;
       var sink := st.held[h].sink;
       var s' := s.With(st.SetSink(h, sink.(starts := sink.starts + 1)));
       if sink.ctx.Some? then s'.To(p, StartCommit(h, sink.ctx)) else s'.To(p, StartLock(h)))
    case Lock(p) =>
      (var h := s.procs[p].h;
       var sink := st.held[h].sink;
       s.With(st.SetSink(h, sink.Start())).To(p, StartCommit(h, sink.StartError())))
    case Commit(p) =>
      (var h, e := s.procs[p].h, s.procs[p].e;
       var s' := s.With(st.Commit(h, e)).(mu := None);
       if e.Some? then s'.To(p, Notifying([h], e.value, true, Failed(e.value)))
       else s'.To(p, Ready(GotStream(h))))
    case BeginWrite(p, h, data) =>
      (var stream := st.held[h].stream.value;
       if stream.Refusal().Some? then s.To(p, Ready(Wrote(0, stream.Refusal())))
       else s.To(p, Writing(h, data, st.held[h].sink.completed, Probing)))
    case WriteProbe(p) =>
      (var w := s.procs[p];
       var sink := st.held[w.h].sink;
       if sink.ctx.Some? then s.To(p, Ready(Wrote(0, sink.ctx))) else s.To(p, w.(at := Locking)))
    case WriteLock(p) =>
      (var w := s.procs[p];
       var sink := st.held[w.h].sink;
       if sink.completed then s.To(p, Ready(Wrote(0, Some(sink.CompletionError()))))
       else if sink.head then s.To(p, w.(at := Rechecking(|w.p|)))
       else s.To(p, w.(at := Putting)))
    case WritePut(p, n, fails) =>
      (var w := s.procs[p];
       var s' := s.With(st.Put(w.h, w.p[..n]));
       if fails then s'.To(p, Ready(Wrote(n, Some(WriterFailed)))) else s'.To(p, w.(at := Settling(n))))
    case WriteSettle(p, flushFails) =>
      (var w := s.procs[p];
       var sink := st.held[w.h].sink;
       if sink.ctx.Some? then s.To(p, Ready(Wrote(w.at.n, sink.ctx)))
       else if flushFails && w.at.n > 0 then s.To(p, Ready(Wrote(w.at.n, Some(WriterFailed))))
       else s.To(p, w.(at := Rechecking(w.at.n))))
    case WriteRecheck(p) =>
      (var w := s.procs[p];
       s.To(p, Ready(Wrote(w.at.n, st.held[w.h].stream.value.err))))
    case BeginClose(p, h, e) =>
      (var stream := st.held[h].stream.value;
       if stream.once.Finished? then s.To(p, Ready(Closed(None)))
       else s.With(st.SetStream(h, stream.(once := Running))).To(p, Closing(h, e, Marking)))
    case CloseMark(p) =>
      (var c := s.procs[p];
       s.With(st.SetStream(c.h, st.held[c.h].stream.value.(done := true))).To(p, c.(cat := Finishing)))
    case CloseFinish(p) =>
      (var c := s.procs[p];
       var st' := st.Complete(c.h, c.e);
       s.With(st').To(p, c.(cat := Removing(st'.held[c.h].sink.err))))
    case CloseRemove(p) =>
      (var c := s.procs[p];
       s.With(st.Drop(st.held[c.h].id).SetStream(c.h, st.held[c.h].stream.value.(once := Finished)))
        .To(p, Ready(Closed(c.cat.answer))))
    case Cancel(p, id, why) =>
      (if id !in st.entries then s.To(p, Ready(CancelAnswer(false)))
       else s.With(st.Detach(id, CancelReason(why)))
             .To(p, Notifying([st.entries[id]], CancelReason(why), false, CancelAnswer(true))))
    case Expire(p, now, queue) =>
      (if queue == [] then s.To(p, Ready(ExpireAnswer(0)))
       else s.With(st.Expire(now)).To(p, Notifying(queue, Expired, false, ExpireAnswer(|queue|))))
    case Poison(p) =>
      (var n := s.procs[p];
       s.With(st.Poison(n.queue[0], n.why)).To(p, n.(poisoned := true)))
    case Tell(p) =>
      (var n := s.procs[p];
       s.With(st.Complete(n.queue[0], Some(n.why)))
        .To(p, if |n.queue| == 1 then Ready(n.reply) else n.(queue := n.queue[1..], poisoned := false)))
    case CtxDone(h) =>
      (var sink := st.held[h].sink;
       if sink.ctx.Some? then s else s.With(st.SetSink(h, sink.(ctx := Some(ContextDone)))))
  }
}
