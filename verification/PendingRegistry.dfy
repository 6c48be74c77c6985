/** The objects of internal/pending/registry.go and cmd/edge-gateway/response_sink.go, with every method
    proved to do to the store what the call functions of HeldCalls.dfy say. */
module PendingRegistry {
  import opened Octets
  import opened HeldRequests
  import opened HeldCalls
  import O = HeldOutcomes
  import Q = Requests

  class ResponseSink {
    const head: bool
    var ctx: Option<Failure>
    var started: bool
    var completed: bool
    var err: Option<Failure>
    var closes: nat  // how often the done channel has been closed
    var handed: Text  // what the response writer was given
    ghost var starts: nat

    ghost function View(): Sink
      reads this
    {
      Sink(head, ctx, started, completed, err, starts, closes, handed)
    }

    constructor (head: bool)
      ensures View() == NewSink(head)
    {
      this.head := head;
      ctx, started, completed, err, closes, handed, starts := None, false, false, None, 0, [], 0;
    }

    method Start() returns (e: Option<Failure>)
      modifies this
      ensures (View(), e) == StartSink(old(View()))
    {
      starts := starts + 1;
      if ctx.Some? { return ctx; }
      if completed {
        return Some(if err.Some? then err.value else ClosedPipe);
      }
      started := true;
      e := None;
    }

    method Complete(e: Option<Failure>) returns (r: Option<Failure>)
      modifies this
      ensures View() == old(View()).Complete(e) && r == err
    {
      if !completed {
        completed, err, closes := true, e, closes + 1;
      }
      r := err;
    }

    method Finish(e: Option<Failure>) returns (r: Option<Failure>)
      modifies this
      ensures View() == old(View()).Complete(e) && r == err
    {
      r := Complete(e);
    }

    method Cancel(why: Option<Failure>)
      modifies this
      ensures View() == old(View()).Complete(Some(CancelReason(why)))
    {
      var _ := Complete(if why.None? then Some(Canceled) else why);
    }

    /** getResponseWriter.Write, or headResponseWriter.Write for HEAD. */
    method Write(p: Text, n: nat, fails: bool, flushFails: bool) returns (count: nat, werr: Option<Failure>)
      requires n <= |p|
      modifies this
      ensures var (bytes, c, e) := SinkWrite(old(View()), p, n, fails, flushFails);
              View() == old(View()).(handed := old(handed) + bytes) && count == c && werr == e
    {
      if ctx.Some? { return 0, ctx; }
      if completed { return 0, Some(if err.Some? then err.value else ClosedPipe); }
      if head { return |p|, None; }
      handed := handed + p[..n];
      if fails || (flushFails && n > 0) { return n, Some(WriterFailed); }
      return n, None;
    }
  }

  class IngestStream {
    const requestId: Text
    const registry: Registry
    const target: ResponseSink
    ghost const ix: nat
    var once: Once
    var done: bool
    var err: Option<Failure>

    ghost function View(): Stream
      reads this
    {
      Stream(done, err, once)
    }

    constructor (requestId: Text, registry: Registry, target: ResponseSink, ghost ix: nat)
      ensures this.requestId == requestId && this.registry == registry && this.target == target && this.ix == ix
      ensures View() == NewStream
    {
      this.requestId, this.registry, this.target, this.ix := requestId, registry, target, ix;
      once, done, err := Idle, false, None;
    }

    method Poison(why: Failure)
      modifies this
      ensures View() == old(View()).Poison(why)
    {
      if err.None? { err := Some(why); }
    }

    /** The stream that the registry handed out for request `ix`. */
    ghost predicate Registered()
      reads this, registry, registry.Repr
    {
      registry.Shape() && ix < |registry.all| && registry.all[ix].stream == this
    }

    method Write(p: Text, n: nat, fails: bool, flushFails: bool, ghost st: Store) returns (count: nat, werr: Option<Failure>)
      requires Registered() && registry.Represents(st) && n <= |p|
      modifies target
      ensures Registered()
      ensures var (bytes, c, e) := WriteCall(View(), st.held[ix].sink, p, n, fails, flushFails);
              registry.Represents(st.Put(ix, bytes)) && count == c && werr == e
    {
      if err.Some? { count, werr := 0, err; }
      else if done { count, werr := 0, Some(ClosedPipe); }
      else { count, werr := target.Write(p, n, fails, flushFails); }
      if werr.None? && err.Some? { werr := err; }
      ghost var bytes := WriteCall(View(), st.held[ix].sink, p, n, fails, flushFails).0;
      PutOk(st, ix, bytes);
      registry.ShapeKept();
      registry.Assemble(st, st.Put(ix, bytes), ix);
    }

    method CloseWithError(e: Option<Failure>, ghost st: Store) returns (closeErr: Option<Failure>)
      requires Registered() && registry.Represents(st) && !once.Running?
      modifies this, target, registry
      ensures Registered()
      ensures registry.Represents(CloseCall(st, ix, e).0) && closeErr == CloseCall(st, ix, e).1
    {
      assert st.held[ix] == registry.all[ix].View();
      if once.Finished? { return None; }
      CloseOk(st, ix, e);
      closeErr := Finish(e, st, CloseCall(st, ix, e).0);
    }

    /** What the once guards: the target finished, the entry of that id removed. */
    method Finish(e: Option<Failure>, ghost st: Store, ghost st': Store) returns (closeErr: Option<Failure>)
      requires Registered() && registry.Represents(st) && Differs(st, st', ix) && st'.entries == st.entries - {requestId}
      requires st'.held[ix] == st.held[ix].(stream := Some(View().(done := true, once := Finished)), sink := target.View().Complete(e))
      modifies this, target, registry
      ensures Registered() && registry.Represents(st') && closeErr == st'.held[ix].sink.err
    {
      assert st.held[ix] == registry.all[ix].View();
      ghost var x := st.held[ix].(stream := Some(View().(done := true)), sink := target.View().Complete(e));
      ghost var st1 := st.Set(ix, x);
      DropSetOk(st, requestId, ix, x);
      closeErr := FinishTarget(e, st, st1);
      DropSetOk(st1, requestId, ix, x);
      registry.Remove(requestId, st1);
      Settle(st1.Drop(requestId), st');
    }

    /** Marked as done, and the target finished. */
    method FinishTarget(e: Option<Failure>, ghost st: Store, ghost st': Store) returns (closeErr: Option<Failure>)
      requires Registered() && registry.Represents(st) && Differs(st, st', ix) && st'.entries == st.entries
      requires st'.held[ix] == st.held[ix].(stream := Some(View().(done := true)), sink := target.View().Complete(e))
      modifies this, target
      ensures Registered() && registry.Represents(st') && closeErr == st'.held[ix].sink.err && once == old(once)
    {
      registry.Apart(ix);
      done := true;
      closeErr := target.Finish(e);
      assert forall j :: 0 <= j < |registry.all| && j != ix ==> registry.all[j].View() == st.held[j];
      registry.ShapeKept();
      registry.Assemble(st, st', ix);
    }

    /** The end of the once. */
    method Settle(ghost st: Store, ghost st': Store)
      requires Registered() && registry.Represents(st) && Differs(st, st', ix) && st'.entries == st.entries
      requires st'.held[ix] == st.held[ix].(stream := Some(View().(once := Finished)))
      modifies this
      ensures Registered() && registry.Represents(st')
    {
      registry.Apart(ix);
      once := Finished;
      registry.ShapeKept();
      registry.Assemble(st, st', ix);
    }
  }

  class Entry {
    const id: Text
    const token: Text
    const deadline: int
    const target: ResponseSink
    ghost const ix: nat
    var claimed: bool
    var stream: IngestStream?
    var err: Option<Failure>

    ghost function View(): Held
      reads this, target, stream
    {
      Held(id, token, deadline, claimed, if stream == null then None else Some(stream.View()), err, target.View())
    }

    constructor (id: Text, token: Text, deadline: int, target: ResponseSink, ghost ix: nat)
      ensures this.id == id && this.token == token && this.deadline == deadline && this.target == target && this.ix == ix
      ensures stream == null && View() == Held(id, token, deadline, false, None, None, target.View())
    {
      this.id, this.token, this.deadline, this.target, this.ix := id, token, deadline, target, ix;
      claimed, stream, err := false, null, None;
    }

    method Cancel(why: Failure)
      modifies this, target, stream
      ensures View() == Cancelled(old(View()), why) && stream == old(stream)
    {
      err := Some(why);
      if stream != null { stream.Poison(why); }
      target.Cancel(Some(why));
    }

    method Tell(why: Failure)
      modifies target, stream
      ensures View() == Told(old(View()), why)
    {
      if stream != null { stream.Poison(why); }
      target.Cancel(Some(why));
    }

    method CurrentError(now: int) returns (e: Option<Failure>)
      ensures e == View().CurrentError(now)
      ensures e.None? <==> err.None? && now < deadline
      ensures err.Some? ==> e == err
      ensures err.None? && deadline <= now ==> e == Some(Expired)
    {
      e := if err.Some? then err else if deadline <= now then Some(Expired) else None;
    }
  }

  class Registry {
    var entries: map<Text, Entry>
    ghost var all: seq<Entry>  // every request ever registered, in order
    ghost var Repr: set<object>

    /** The object graph: each request has its own entry, target and stream. */
    ghost predicate Shape()
      reads this, Repr
    {
      && this in Repr
      && (forall i :: 0 <= i < |all| ==>
            && all[i] in Repr && all[i].target in Repr && all[i].ix == i
            && (all[i].stream != null ==>
                  && all[i].stream in Repr && all[i].stream.ix == i && all[i].stream.target == all[i].target
                  && all[i].stream.requestId == all[i].id && all[i].stream.registry == this))
      && (forall i, j :: 0 <= i < j < |all| ==> all[i].target != all[j].target)
      && (forall id <- entries :: entries[id].ix < |all| && all[entries[id].ix] == entries[id])
    }

    /** The heap holds exactly the store `st`. */
    ghost predicate Represents(st: Store)
      reads this, Repr
    {
      && Shape()
      && st.Ok() && |st.held| == |all|
      && (forall i :: 0 <= i < |all| ==> st.held[i] == all[i].View())
      && st.entries.Keys == entries.Keys
      && (forall id <- entries :: st.entries[id] == entries[id].ix)
    }

    /** The heap holds `st'`, which differs from `st` in request `i` and the map. */
    lemma Assemble(st: Store, st': Store, i: nat)
      requires i < |all| == |st.held| && Differs(st, st', i)
      requires forall j :: 0 <= j < |all| && j != i ==> all[j].View() == st.held[j]
      requires st'.held[i] == all[i].View()
      requires st'.entries.Keys == entries.Keys && forall id <- entries :: st'.entries[id] == entries[id].ix
      ensures Shape() ==> Represents(st')
    {
    }

    /** Map entries may go, nothing else of the graph changes. */
    twostate lemma ShapeKept()
      requires old(Shape()) && all == old(all) && Repr == old(Repr)
      requires forall j :: 0 <= j < |all| ==> all[j].stream == old(all[j].stream)
      requires forall id <- entries :: id in old(entries) && entries[id] == old(entries)[id]
      ensures Shape()
    {
    }

    /** One entry more, with a target of its own. */
    twostate lemma ShapeGrown(entry: Entry)
      requires old(Shape()) && all == old(all) + [entry] && Repr == old(Repr) + {entry, entry.target}
      requires entry.ix == |old(all)| && entry.stream == null && entry.target !in old(Repr)
      requires forall j :: 0 <= j < |old(all)| ==> all[j].stream == old(all[j].stream)
      requires entries == old(entries)[entry.id := entry]
      ensures Shape()
    {
    }

    constructor ()
      ensures Shape() && Represents(Store(map[], []))
    {
      entries, all, Repr := map[], [], {this};
    }

    /** Requests do not share objects. */
    lemma Apart(i: nat)
      requires Shape() && i < |all|
      ensures forall j :: 0 <= j < |all| && j != i ==>
                all[j] != all[i] && all[j].target != all[i].target && (all[j].stream != null ==> all[j].stream != all[i].stream)
    {
    }

    /** One request more. */
    lemma AssembleNew(st: Store, st': Store)
      requires Shape() && |all| == |st.held| + 1 == |st'.held| && st'.Ok()
      requires forall j :: 0 <= j < |st.held| ==> all[j].View() == st.held[j] == st'.held[j]
      requires st'.held[|st.held|] == all[|st.held|].View()
      requires st'.entries.Keys == entries.Keys && forall id <- entries :: st'.entries[id] == entries[id].ix
      ensures Represents(st')
    {
    }

    /** Register, in the order of its checks. */
    method Register(o: Q.Request, target: ResponseSink?, now: int, ghost st: Store) returns (e: Option<Failure>)
      requires Represents(st) && (target != null ==> target !in Repr && target.View() == NewSink(target.head))
      modifies this
      ensures e == if target == null then Some(InvalidRequest) else if Q.Objection(o, now).Some? then Q.Objection(o, now)
                   else if o.id in st.entries then Some(AlreadyExists) else None
      ensures Represents(if e.None? then st.Register(o.id, o.token, o.deadline.value, target.head) else st)
    {
      if target == null { return Some(InvalidRequest); }
      if Q.Objection(o, now).Some? { return Q.Objection(o, now); }
      if o.id in entries { return Some(AlreadyExists); }
      var entry := new Entry(o.id, o.token, o.deadline.value, target, |all|);
      Insert(entry, st);
      e := None;
    }

    method Insert(entry: Entry, ghost st: Store)
      requires Represents(st) && entry !in Repr && entry.target !in Repr && entry.ix == |all|
      requires entry.View() == Held(entry.id, entry.token, entry.deadline, false, None, None, NewSink(entry.target.head))
      modifies this
      ensures Represents(st.Register(entry.id, entry.token, entry.deadline, entry.target.head))
    {
      ghost var st' := st.Register(entry.id, entry.token, entry.deadline, entry.target.head);
      RegisterOk(st, entry.id, entry.token, entry.deadline, entry.target.head);
      entries := entries[entry.id := entry];
      all := all + [entry];
      Repr := Repr + {entry, entry.target};
      ShapeGrown(entry);
      AssembleNew(st, st');
    }

    method StartIngest(id: Text, token: Text, now: int, ghost st: Store) returns (stream: IngestStream?, e: Option<Failure>)
      requires Represents(st)
      modifies Repr
      ensures Represents(StartCall(st, id, token, now).0)
      ensures match StartCall(st, id, token, now).1
              case Ok(h) => e.None? && h < |all| && stream == all[h].stream && stream != null
              case Err(f) => e == Some(f) && stream == null
      ensures stream != null <==>
                id in st.entries
                && var x := st.held[st.entries[id]];
                   x.err.None? && now < x.deadline && !x.claimed && x.token == token && x.sink.ctx.None? && !x.sink.completed
      ensures id in st.entries && st.held[st.entries[id]].err.None? && st.held[st.entries[id]].deadline <= now ==>
                e == Some(Expired) && id !in entries
    {
      StartOk(st, id, token, now);
      O.StartExactlyWhen(st, id, token, now);
      if id !in entries { return null, Some(NotFound); }
      var entry := entries[id];
      assert st.entries[id] == entry.ix && st.held[entry.ix] == entry.View();
      stream, e := Decide(entry, token, now, st, StartCall(st, id, token, now).0);
    }

    /** StartIngest on the entry it has found. */
    method Decide(entry: Entry, token: Text, now: int, ghost st: Store, ghost st': Store) returns (stream: IngestStream?, e: Option<Failure>)
      requires Represents(st) && entry.ix < |all| && all[entry.ix] == entry && entry.View() == st.held[entry.ix]
      requires entry.View().CurrentError(now).Some? ==>
                 && Differs(st, st', entry.ix) && st'.entries == st.entries - {entry.id}
                 && st'.held[entry.ix] == st.held[entry.ix].(sink := st.held[entry.ix].sink.Complete(entry.View().CurrentError(now)))
      requires entry.View().CurrentError(now).None? && (entry.claimed || entry.token != token) ==> st' == st
      requires entry.View().CurrentError(now).None? && !entry.claimed && entry.token == token ==>
                 var (x, f) := Started(st.held[entry.ix]);
                 && Differs(st, st', entry.ix) && st'.held[entry.ix] == x
                 && st'.entries == (if f.Some? then st.entries - {entry.id} else st.entries)
      modifies Repr
      ensures Represents(st') && all == old(all) && (stream != null <==> e.None?) && (e.None? ==> stream == entry.stream)
      ensures e == if st.held[entry.ix].CurrentError(now).Some? then st.held[entry.ix].CurrentError(now)
                   else if st.held[entry.ix].claimed then Some(Replayed)
                   else if entry.token != token then Some(InvalidToken) else Started(st.held[entry.ix]).1
    {
      stream := null;
      var stale := entry.CurrentError(now);
      if stale.Some? {
        RetireStale(entry, stale.value, st, st');
        e := stale;
      } else if entry.claimed {
        e := Some(Replayed);
      } else if entry.token != token {
        e := Some(InvalidToken);
      } else {
        stream, e := Claim(entry, st, st');
      }
    }

    /** The request is over: out of the map, and its target is told. */
    method RetireStale(entry: Entry, why: Failure, ghost st: Store, ghost st': Store)
      requires Represents(st) && entry.ix < |all| && all[entry.ix] == entry && Differs(st, st', entry.ix)
      requires st'.held[entry.ix] == st.held[entry.ix].(sink := st.held[entry.ix].sink.Complete(Some(why)))
      requires st'.entries == st.entries - {entry.id}
      modifies this`entries, entry.target
      ensures Represents(st')
    {
      Remove(entry.id, st);
      CancelTarget(entry, why, st.Drop(entry.id), st');
    }

    method CancelTarget(entry: Entry, why: Failure, ghost st: Store, ghost st': Store)
      requires Represents(st) && entry.ix < |all| && all[entry.ix] == entry && Differs(st, st', entry.ix) && st'.entries == st.entries
      requires st'.held[entry.ix] == st.held[entry.ix].(sink := st.held[entry.ix].sink.Complete(Some(why)))
      modifies entry.target
      ensures Represents(st')
    {
      Apart(entry.ix);
      entry.target.Cancel(Some(why));
      ShapeKept();
      Assemble(st, st', entry.ix);
    }

    method Claim(entry: Entry, ghost st: Store, ghost st': Store) returns (stream: IngestStream?, e: Option<Failure>)
      requires Represents(st) && entry.ix < |all| && all[entry.ix] == entry && Differs(st, st', entry.ix)
      requires var (x, e) := Started(st.held[entry.ix]);
               st'.held[entry.ix] == x && st'.entries == (if e.Some? then st.entries - {entry.id} else st.entries)
      modifies this`entries, this`Repr, entry, entry.target
      ensures Represents(st') && all == old(all)
      ensures e == Started(st.held[entry.ix]).1 && stream == (if e.None? then entry.stream else null)
      ensures e.None? ==> stream != null
    {
      ghost var x := st.held[entry.ix];
      ghost var st1 := st.Set(entry.ix, x.(claimed := true, sink := StartSink(x.sink).0));
      DropSetOk(st, [], entry.ix, st1.held[entry.ix]);
      stream := null;
      e := TryStart(entry, st, st1);
      if e.Some? {
        RetireStale(entry, e.value, st1, st');
      } else {
        Attach(entry, st1, st');
        stream := entry.stream;
      }
    }

    /** Claimed, and target.Start asked. */
    method TryStart(entry: Entry, ghost st: Store, ghost st': Store) returns (e: Option<Failure>)
      requires Represents(st) && entry.ix < |all| && all[entry.ix] == entry && Differs(st, st', entry.ix) && st'.entries == st.entries
      requires var x := st.held[entry.ix]; st'.held[entry.ix] == x.(claimed := true, sink := StartSink(x.sink).0)
      modifies entry, entry.target
      ensures Represents(st') && e == StartSink(st.held[entry.ix].sink).1
    {
      Apart(entry.ix);
      entry.claimed := true;
      e := entry.target.Start();
      ShapeKept();
      Assemble(st, st', entry.ix);
    }

    /** The stream of the claimed entry. */
    method Attach(entry: Entry, ghost st: Store, ghost st': Store)
      requires Represents(st) && entry.ix < |all| && all[entry.ix] == entry && Differs(st, st', entry.ix) && st'.entries == st.entries
      requires st'.held[entry.ix] == st.held[entry.ix].(stream := Some(NewStream))
      modifies this`Repr, entry
      ensures Represents(st') && entry.stream != null
    {
      Apart(entry.ix);
      entry.stream := new IngestStream(entry.id, this, entry.target, entry.ix);
      Repr := Repr + {entry.stream};
      Assemble(st, st', entry.ix);
    }

    /** Cancel: out of the map, then the stream, then the target. */
    method Cancel(id: Text, why: Option<Failure>, ghost st: Store) returns (known: bool)
      requires Represents(st)
      modifies Repr
      ensures Represents(CancelCall(st, id, why).0) && known == CancelCall(st, id, why).1
    {
      if id !in entries { return false; }
      var entry := entries[id];
      assert st.entries[id] == entry.ix && st.held[entry.ix] == entry.View();
      CancelOk(st, id, why);
      ghost var st' := CancelCall(st, id, why).0;
      Withdraw(entry, if why.None? then Canceled else why.value, st, st');
      known := true;
    }

    method Withdraw(entry: Entry, why: Failure, ghost st: Store, ghost st': Store)
      requires Represents(st) && entry.ix < |all| && all[entry.ix] == entry && Differs(st, st', entry.ix)
      requires st'.held[entry.ix] == Cancelled(st.held[entry.ix], why) && st'.entries == st.entries - {entry.id}
      modifies this`entries, entry, entry.target, entry.stream
      ensures Represents(st')
    {
      Remove(entry.id, st);
      CancelEntry(entry, why, st.Drop(entry.id), st');
    }

    /** entry.Cancel, outside the lock. */
    method CancelEntry(entry: Entry, why: Failure, ghost st: Store, ghost st': Store)
      requires Represents(st) && entry.ix < |all| && all[entry.ix] == entry && Differs(st, st', entry.ix) && st'.entries == st.entries
      requires st'.held[entry.ix] == Cancelled(st.held[entry.ix], why)
      modifies entry, entry.target, entry.stream
      ensures Represents(st')
    {
      Apart(entry.ix);
      entry.Cancel(why);
      ShapeKept();
      Assemble(st, st', entry.ix);
    }

    method Notify(entry: Entry, why: Failure, ghost st: Store)
      requires Represents(st) && entry.ix < |all| && all[entry.ix] == entry
      modifies entry.target, entry.stream
      ensures Represents(st.Poison(entry.ix, why).Complete(entry.ix, Some(why)))
    {
      ghost var st' := st.Poison(entry.ix, why).Complete(entry.ix, Some(why));
      TellOk(st, entry.ix, why);
      Apart(entry.ix);
      entry.Tell(why);
      ShapeKept();
      Assemble(st, st', entry.ix);
    }

    method Detach(entry: Entry, why: Failure, ghost st: Store)
      requires Represents(st) && entry.ix < |all| && all[entry.ix] == entry
      requires entry.id in st.entries && st.entries[entry.id] == entry.ix
      modifies this`entries, entry`err
      ensures Represents(st.Detach(entry.id, why))
    {
      ghost var st' := st.Detach(entry.id, why);
      DetachOk(st, entry.id, why);
      Remove(entry.id, st);
      Mark(entry, why, st.Drop(entry.id), st');
    }

    method Mark(entry: Entry, why: Failure, ghost st: Store, ghost st': Store)
      requires Represents(st) && entry.ix < |all| && all[entry.ix] == entry && Differs(st, st', entry.ix) && st'.entries == st.entries
      requires st'.held[entry.ix] == st.held[entry.ix].(err := Some(why))
      modifies entry`err
      ensures Represents(st')
    {
      Apart(entry.ix);
      entry.err := Some(why);
      ShapeKept();
      Assemble(st, st', entry.ix);
    }

    /** What Expire has listed. */
    ghost predicate Lists(expired: seq<Entry>, queue: seq<nat>)
      reads this
    {
      |expired| == |queue| && forall k :: 0 <= k < |queue| ==> queue[k] < |all| && all[queue[k]] == expired[k] && expired[k].ix == queue[k]
    }

    /** The first loop of Expire, under the lock: expired requests leave the map and are listed. */
    method Sweep(now: int, ghost st: Store) returns (expired: seq<Entry>, ghost queue: seq<nat>)
      requires Represents(st)
      modifies this`entries, all
      ensures Represents(st.Expire(now)) && Lists(expired, queue) && ListsExpired(st, now, queue)
      ensures all == old(all) && Repr == old(Repr)
    {
      var todo := entries.Keys;
      expired, queue := [], [];
      SweepStart(st, now);
      ghost var cur := st;
      while todo != {}
        invariant all == old(all) && Repr == old(Repr) && todo <= st.entries.Keys
        invariant Represents(cur) && Lists(expired, queue)
        invariant cur == Swept(st, now, todo) && ListsTaken(st, now, todo, queue)
        decreases todo
      {
        var id :| id in todo;
        SweepRound(st, cur, now, todo, queue, id);
        expired := SweepId(id, now, expired, queue, cur);
        cur, queue := SweptOne(cur, now, id), ListedOne(cur, now, id, queue);
        todo := todo - {id};
      }
      SweepEnd(st, now, queue);
    }

    /** One round of that loop. */
    method SweepId(id: Text, now: int, expired: seq<Entry>, ghost queue: seq<nat>, ghost cur: Store) returns (expired': seq<Entry>)
      requires Represents(cur) && id in cur.entries && Lists(expired, queue)
      modifies this`entries, all
      ensures all == old(all) && Repr == old(Repr)
      ensures Represents(SweptOne(cur, now, id)) && Lists(expired', ListedOne(cur, now, id, queue))
    {
      var entry := EntryOf(id, cur);
      expired' := SweepOne(entry, now, expired, queue, cur);
    }

    method SweepOne(entry: Entry, now: int, expired: seq<Entry>, ghost queue: seq<nat>, ghost cur: Store) returns (expired': seq<Entry>)
      requires Represents(cur) && Lists(expired, queue) && entry.ix < |all| && all[entry.ix] == entry
      requires entry.id in cur.entries && cur.entries[entry.id] == entry.ix && cur.held[entry.ix].deadline == entry.deadline
      modifies this`entries, entry`err
      ensures Represents(SweptOne(cur, now, entry.id)) && Lists(expired', ListedOne(cur, now, entry.id, queue))
    {
      if entry.deadline <= now {
        Detach(entry, Failure.Expired, cur);
        expired' := expired + [entry];
      } else {
        expired' := expired;
      }
    }

    method EntryOf(id: Text, ghost cur: Store) returns (entry: Entry)
      requires Represents(cur) && id in cur.entries
      ensures entry.ix == cur.entries[id] < |all| && all[entry.ix] == entry && entry.View() == cur.held[entry.ix] && entry.id == id
    {
      entry := entries[id];
    }

    /** Expire: every request over its deadline leaves the map, then each is told. */
    method Expire(now: int, ghost st: Store) returns (count: nat, ghost queue: seq<nat>)
      requires Represents(st)
      modifies Repr
      ensures ListsExpired(st, now, queue) && count == |queue|
      ensures Represents(NotifyAll(st.Expire(now), queue, Failure.Expired))
    {
      var expired;
      expired, queue := Sweep(now, st);
      NotifyEach(expired, queue, st.Expire(now));
      count := |expired|;
    }

    /** The second loop of Expire, outside the lock. */
    method NotifyEach(expired: seq<Entry>, ghost queue: seq<nat>, ghost from: Store)
      requires Represents(from) && Lists(expired, queue)
      modifies Repr
      ensures all == old(all) && Repr == old(Repr)
      ensures Represents(NotifyAll(from, queue, Failure.Expired))
    {
      ghost var cur := from;
      for k := 0 to |expired|
        invariant all == old(all) && Repr == old(Repr) && Lists(expired, queue)
        invariant |from.held| == |all| && cur == NotifyAll(from, queue[..k], Failure.Expired) && Represents(cur)
      {
        cur := NotifyNext(expired[k], from, queue[..k], cur);
        assert queue[..k + 1] == queue[..k] + [queue[k]];
      }
      assert queue[..|expired|] == queue;
    }

    method NotifyNext(entry: Entry, ghost from: Store, ghost told: seq<nat>, ghost cur: Store) returns (ghost cur': Store)
      requires |from.held| == |all| && entry.ix < |all| && all[entry.ix] == entry
      requires forall i :: 0 <= i < |told| ==> told[i] < |all|
      requires Represents(cur) && cur == NotifyAll(from, told, Failure.Expired)
      modifies Repr
      ensures all == old(all) && Repr == old(Repr)
      ensures cur' == NotifyAll(from, told + [entry.ix], Failure.Expired) && Represents(cur')
    {
      NotifyLast(from, told, entry.ix, Failure.Expired);
      cur' := cur.Poison(entry.ix, Failure.Expired).Complete(entry.ix, Some(Failure.Expired));
      Notify(entry, Failure.Expired, cur);
    }

    /** Out of the map, by id. */
    method Remove(id: Text, ghost st: Store)
      requires Represents(st)
      modifies `entries
      ensures all == old(all) && Repr == old(Repr) && Represents(st.Drop(id))
    {
      entries := entries - {id};
      ShapeKept();
      Dropped(st, id);
    }

    lemma Dropped(st: Store, id: Text)
      requires Shape() && st.Ok() && |st.held| == |all| && forall i :: 0 <= i < |all| ==> st.held[i] == all[i].View()
      requires entries.Keys == st.entries.Keys - {id} && forall key <- entries :: st.entries[key] == entries[key].ix
      ensures Represents(st.Drop(id))
    {
    }
  }
}
