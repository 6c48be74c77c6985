/** One run of the whole path, from the registration of a request to the release of its waiter with nil: a client puts a
    header and `n` octets of its body on the wire, and the server reads them, claims the request, writes and closes. */
module DeliveryRun {
  import opened Octets
  import HR = HeldRequests
  import opened HeldRequests
  import D = Delivery
  import opened Delivery
  import opened DeliveryProofs
  import opened DeliveryTheorems
  import opened MessagePack
  import F = Frames

  /** A request for GET or HEAD with a deadline, and a client that sends `n` octets of its body; after that it is at
      `client`, its stream ended or not. */
  datatype Case = Case(header: F.Header, frame: Text, valid: F.Header, body: Text, n: nat, client: ClientAt, eof: bool,
                       head: bool, deadline: int, now: int, maxHeaderBytes: int)

  predicate Fits(k: Case) {
    && k.n <= |k.body| && k.now < k.deadline
    && (if k.header.bodyLength >= 0 then k.n == k.header.bodyLength else k.eof)
    && k.valid.requestId == k.header.requestId && k.valid.ingestToken == k.header.ingestToken && k.valid.bodyLength == k.header.bodyLength
  }

  function Data(k: Case): Text
    requires Fits(k)
  {
    k.body[..k.n]
  }

  /** What the response writer is to be given of it. */
  function ForWriter(k: Case): Text
    requires Fits(k)
  {
    if k.head then [] else Data(k)
  }

  /** One connection, served by goroutine 0. */
  function Sys(k: Case, reg: HR.State, c: Conn): System {
    System(reg, map[0 := c], k.maxHeaderBytes)
  }

  /** A property of a state and the moves to come. */
  type Goal = (System, seq<Move>) -> bool

  ghost predicate Leads(y: System, m: Move, y': System) {
    HR.Typed(y.reg) && D.Enabled(y, m) && Coded(y, m) && D.Apply(y, m) == y'
  }

  /** It is kept under going one move back. */
  ghost predicate Backwards(ok: Goal) {
    forall y, m, y', rest :: Leads(y, m, y') && ok(y', rest) ==> ok(y, [m] + rest)
  }

  lemma Cons(ok: Goal, y: System, m: Move, y': System, rest: seq<Move>) returns (ms: seq<Move>)
    requires Backwards(ok) && Leads(y, m, y') && ok(y', rest)
    ensures ok(y, ms)
  {
    ms := [m] + rest;
  }

  /** A move of the client, of the channel or of the server that leaves the registry alone. */
  lemma Local(ok: Goal, k: Case, reg: HR.State, c: Conn, m: Move, c': Conn, rest: seq<Move>) returns (ms: seq<Move>)
    requires Backwards(ok) && HR.Typed(reg) && !MovesRegistry(m) && !m.Connect? && !m.ServerHeader? && m.p == 0
    requires D.Enabled(Sys(k, reg, c), m) && MoveConn(Sys(k, reg, c), m, 0) == c'
    requires ok(Sys(k, reg, c'), rest)
    ensures ok(Sys(k, reg, c), ms)
  {
    assert map[0 := c][0 := c'] == map[0 := c'];
    ms := Cons(ok, Sys(k, reg, c), m, Sys(k, reg, c'), rest);
  }

  /** A step of the registry protocol. */
  lemma Inner(ok: Goal, k: Case, reg: HR.State, step: HR.Step, reg': HR.State, c: Conn, rest: seq<Move>) returns (ms: seq<Move>)
    requires Backwards(ok) && HR.Typed(reg) && HR.Enabled(reg, step) && HR.Apply(reg, step) == reg' && Internal(step)
    requires ok(Sys(k, reg', c), rest)
    ensures ok(Sys(k, reg, c), ms)
  {
    ms := Cons(ok, Sys(k, reg, c), Move.Registry(step), Sys(k, reg', c), rest);
  }

  /** A move of the server that begins a call of the registry. */
  lemma Begins(ok: Goal, k: Case, reg: HR.State, c: Conn, m: Move, step: HR.Step, reg': HR.State, c': Conn, rest: seq<Move>) returns (ms: seq<Move>)
    requires Backwards(ok) && HR.Typed(reg) && MovesRegistry(m) && !m.Registry? && m.p == 0
    requires RegistryStep(Sys(k, reg, c), m) == Some(step)
    requires D.Enabled(Sys(k, reg, c), m) && HR.Apply(reg, step) == reg' && MoveConn(Sys(k, reg, c), m, 0) == c'
    requires ok(Sys(k, reg', c'), rest)
    ensures ok(Sys(k, reg, c), ms)
  {
    assert map[0 := c][0 := c'] == map[0 := c'];
    ms := Cons(ok, Sys(k, reg, c), m, Sys(k, reg', c'), rest);
  }

  // ----- the states on the way -----

  function Reg(mu: Option<nat>, x: Held, call: Call): HR.State {
    HR.State(mu, Store(map[x.id := 0], [x]), [call])
  }

  /** The request of the header, with the given progress. */
  function Request(k: Case, claimed: bool, stream: Option<Stream>, sink: Sink): Held {
    Held(k.header.requestId, k.header.ingestToken, k.deadline, claimed, stream, None, sink)
  }

  function Streaming(k: Case, once: Once, done: bool, handed: Text): Held {
    Request(k, true, Some(Stream(done, None, once)), NewSink(k.head).(starts := 1, started := true, handed := handed))
  }

  /** The client is through. */
  function Line(k: Case, wire: Text, server: ServerAt): Conn {
    Conn(k.header, Ok(k.frame), k.valid, k.body, k.n, wire, k.eof, k.client, server, [])
  }

  /** The waiter is released with nil. */
  function Released(k: Case): System
    requires Fits(k)
  {
    var x := Streaming(k, Running, true, ForWriter(k));
    Sys(k, Reg(None, x.(sink := x.sink.(completed := true, closes := 1)), Closing(0, None, Removing(None))),
        Line(k, [], InClose(k.valid, 0, k.n, None)))
  }

  // ----- the end: the close without an error -----

  lemma ClosesStream(ok: Goal, k: Case, last: seq<Move>) returns (ms: seq<Move>)
    requires Backwards(ok) && Fits(k) && ok(Released(k), last)
    ensures ok(Sys(k, Reg(None, Streaming(k, Running, false, ForWriter(k)), Closing(0, None, Marking)), Line(k, [], InClose(k.valid, 0, k.n, None))), ms)
  {
    var r0 := Reg(None, Streaming(k, Running, false, ForWriter(k)), Closing(0, None, Marking));
    var r1 := Reg(None, Streaming(k, Running, true, ForWriter(k)), Closing(0, None, Finishing));
    ms := FinishesTarget(ok, k, last);
    ms := Inner(ok, k, r0, CloseMark(0), r1, Line(k, [], InClose(k.valid, 0, k.n, None)), ms);
  }

  lemma FinishesTarget(ok: Goal, k: Case, last: seq<Move>) returns (ms: seq<Move>)
    requires Backwards(ok) && Fits(k) && ok(Released(k), last)
    ensures ok(Sys(k, Reg(None, Streaming(k, Running, true, ForWriter(k)), Closing(0, None, Finishing)), Line(k, [], InClose(k.valid, 0, k.n, None))), ms)
  {
    var r := Reg(None, Streaming(k, Running, true, ForWriter(k)), Closing(0, None, Finishing));
    ms := Inner(ok, k, r, CloseFinish(0), Released(k).reg, Line(k, [], InClose(k.valid, 0, k.n, None)), last);
  }

  /** The end of the stream reaches the server. */
  lemma EndsBody(ok: Goal, k: Case, last: seq<Move>, answer: Answer) returns (ms: seq<Move>)
    requires Backwards(ok) && Fits(k) && ok(Released(k), last)
    ensures ok(Sys(k, Reg(None, Streaming(k, Idle, false, ForWriter(k)), Ready(answer)), Line(k, [], Copying(k.valid, 0, k.n))), ms)
  {
    var r := Reg(None, Streaming(k, Idle, false, ForWriter(k)), Ready(answer));
    ms := BeginsClose(ok, k, last, answer);
    ms := Local(ok, k, r, Line(k, [], Copying(k.valid, 0, k.n)), ServerBodyEnd(0), Line(k, [], ToClose(k.valid, 0, k.n, None)), ms);
  }

  lemma BeginsClose(ok: Goal, k: Case, last: seq<Move>, answer: Answer) returns (ms: seq<Move>)
    requires Backwards(ok) && Fits(k) && ok(Released(k), last)
    ensures ok(Sys(k, Reg(None, Streaming(k, Idle, false, ForWriter(k)), Ready(answer)), Line(k, [], ToClose(k.valid, 0, k.n, None))), ms)
  {
    var r := Reg(None, Streaming(k, Idle, false, ForWriter(k)), Ready(answer));
    var r' := Reg(None, Streaming(k, Running, false, ForWriter(k)), Closing(0, None, Marking));
    var c, c' := Line(k, [], ToClose(k.valid, 0, k.n, None)), Line(k, [], InClose(k.valid, 0, k.n, None));
    ms := ClosesStream(ok, k, last);
    ms := Begins(ok, k, r, c, ServerClose(0), BeginClose(0, 0, None), r', c', ms);
  }

  // ----- what was sent is handed over, if it is anything -----

  lemma WriteReturns(ok: Goal, k: Case, last: seq<Move>) returns (ms: seq<Move>)
    requires Backwards(ok) && Fits(k) && ok(Released(k), last)
    ensures ok(Sys(k, Reg(None, Streaming(k, Idle, false, ForWriter(k)), Ready(Wrote(k.n, None))), Line(k, [], InWrite(k.valid, 0, k.n, Data(k)))), ms)
  {
    var r := Reg(None, Streaming(k, Idle, false, ForWriter(k)), Ready(Wrote(k.n, None)));
    ms := EndsBody(ok, k, last, Wrote(k.n, None));
    ms := Local(ok, k, r, Line(k, [], InWrite(k.valid, 0, k.n, Data(k))), ServerWrote(0), Line(k, [], Copying(k.valid, 0, k.n)), ms);
  }

  lemma Rechecks(ok: Goal, k: Case, last: seq<Move>) returns (ms: seq<Move>)
    requires Backwards(ok) && Fits(k) && ok(Released(k), last)
    ensures ok(Sys(k, Reg(None, Streaming(k, Idle, false, ForWriter(k)), Writing(0, Data(k), false, Rechecking(k.n))), Line(k, [], InWrite(k.valid, 0, k.n, Data(k)))), ms)
  {
    var c, x, data := Line(k, [], InWrite(k.valid, 0, k.n, Data(k))), Streaming(k, Idle, false, ForWriter(k)), Data(k);
    ms := WriteReturns(ok, k, last);
    ms := Inner(ok, k, Reg(None, x, Writing(0, data, false, Rechecking(k.n))), WriteRecheck(0), Reg(None, x, Ready(Wrote(k.n, None))), c, ms);
  }

  lemma Settles(ok: Goal, k: Case, last: seq<Move>) returns (ms: seq<Move>)
    requires Backwards(ok) && Fits(k) && ok(Released(k), last)
    ensures ok(Sys(k, Reg(None, Streaming(k, Idle, false, ForWriter(k)), Writing(0, Data(k), false, Settling(k.n))), Line(k, [], InWrite(k.valid, 0, k.n, Data(k)))), ms)
  {
    var c, x, data := Line(k, [], InWrite(k.valid, 0, k.n, Data(k))), Streaming(k, Idle, false, ForWriter(k)), Data(k);
    var r0, r1 := Reg(None, x, Writing(0, data, false, Settling(k.n))), Reg(None, x, Writing(0, data, false, Rechecking(k.n)));
    ms := Rechecks(ok, k, last);
    ms := Inner(ok, k, r0, WriteSettle(0, false), r1, c, ms);
  }

  lemma Puts(ok: Goal, k: Case, last: seq<Move>) returns (ms: seq<Move>)
    requires Backwards(ok) && Fits(k) && ok(Released(k), last) && !k.head
    ensures ok(Sys(k, Reg(None, Streaming(k, Idle, false, []), Writing(0, Data(k), false, Putting)), Line(k, [], InWrite(k.valid, 0, k.n, Data(k)))), ms)
  {
    var data := Data(k);
    var r := Reg(None, Streaming(k, Idle, false, []), Writing(0, data, false, Putting));
    var r' := Reg(None, Streaming(k, Idle, false, data), Writing(0, data, false, Settling(k.n)));
    assert [] + data[..k.n] == data;
    ms := Settles(ok, k, last);
    ms := Inner(ok, k, r, WritePut(0, k.n, false), r', Line(k, [], InWrite(k.valid, 0, k.n, data)), ms);
  }

  /** GET goes on to the response writer, HEAD does not. */
  lemma Writes(ok: Goal, k: Case, last: seq<Move>) returns (ms: seq<Move>)
    requires Backwards(ok) && Fits(k) && ok(Released(k), last)
    ensures ok(Sys(k, Reg(None, Streaming(k, Idle, false, []), Writing(0, Data(k), false, Locking)), Line(k, [], InWrite(k.valid, 0, k.n, Data(k)))), ms)
  {
    var x, data, c := Streaming(k, Idle, false, []), Data(k), Line(k, [], InWrite(k.valid, 0, k.n, Data(k)));
    if k.head { ms := Rechecks(ok, k, last); } else { ms := Puts(ok, k, last); }
    var at := if k.head then Rechecking(k.n) else Putting;
    ms := Inner(ok, k, Reg(None, x, Writing(0, data, false, Locking)), WriteLock(0), Reg(None, x, Writing(0, data, false, at)), c, ms);
  }

  lemma Checks(ok: Goal, k: Case, last: seq<Move>) returns (ms: seq<Move>)
    requires Backwards(ok) && Fits(k) && ok(Released(k), last)
    ensures ok(Sys(k, Reg(None, Streaming(k, Idle, false, []), Writing(0, Data(k), false, Probing)), Line(k, [], InWrite(k.valid, 0, k.n, Data(k)))), ms)
  {
    var x, data, c := Streaming(k, Idle, false, []), Data(k), Line(k, [], InWrite(k.valid, 0, k.n, Data(k)));
    ms := Writes(ok, k, last);
    ms := Inner(ok, k, Reg(None, x, Writing(0, data, false, Probing)), WriteProbe(0), Reg(None, x, Writing(0, data, false, Locking)), c, ms);
  }

  /** The write that the server begins with what it has read. */
  lemma WriteBegins(k: Case)
    requires Fits(k)
    ensures var x := Streaming(k, Idle, false, []);
            var r := Reg(None, x, Ready(GotStream(0)));
            && HR.Typed(r) && HR.Enabled(r, BeginWrite(0, 0, Data(k)))
            && HR.Apply(r, BeginWrite(0, 0, Data(k))) == Reg(None, x, Writing(0, Data(k), false, Probing))
  {
  }

  lemma ReadsBody(ok: Goal, k: Case, last: seq<Move>) returns (ms: seq<Move>)
    requires Backwards(ok) && Fits(k) && ok(Released(k), last) && k.n > 0
    ensures ok(Sys(k, Reg(None, Streaming(k, Idle, false, []), Ready(GotStream(0))), Line(k, Data(k), Copying(k.valid, 0, 0))), ms)
  {
    var x, data := Streaming(k, Idle, false, []), Data(k);
    var r, r' := Reg(None, x, Ready(GotStream(0))), Reg(None, x, Writing(0, data, false, Probing));
    assert data[..k.n] == data && data[k.n..] == [];
    WriteBegins(k);
    ms := Checks(ok, k, last);
    ms := Begins(ok, k, r, Line(k, data, Copying(k.valid, 0, 0)), ServerRead(0, k.n), BeginWrite(0, 0, data), r',
                 Line(k, [], InWrite(k.valid, 0, k.n, data)), ms);
  }

  lemma ReadsWhatIsThere(ok: Goal, k: Case, last: seq<Move>) returns (ms: seq<Move>)
    requires Backwards(ok) && Fits(k) && ok(Released(k), last)
    ensures ok(Sys(k, Reg(None, Streaming(k, Idle, false, []), Ready(GotStream(0))), Line(k, Data(k), Copying(k.valid, 0, 0))), ms)
  {
    if k.n > 0 {
      ms := ReadsBody(ok, k, last);
    } else {
      assert Data(k) == [];
      ms := EndsBody(ok, k, last, GotStream(0));
    }
  }

  // ----- the claim -----

  lemma Claimed(ok: Goal, k: Case, last: seq<Move>) returns (ms: seq<Move>)
    requires Backwards(ok) && Fits(k) && ok(Released(k), last)
    ensures ok(Sys(k, Reg(None, Streaming(k, Idle, false, []), Ready(GotStream(0))), Line(k, Data(k), Claiming(k.valid))), ms)
  {
    var r := Reg(None, Streaming(k, Idle, false, []), Ready(GotStream(0)));
    ms := ReadsWhatIsThere(ok, k, last);
    ms := Local(ok, k, r, Line(k, Data(k), Claiming(k.valid)), ServerClaimed(0), Line(k, Data(k), Copying(k.valid, 0, 0)), ms);
  }

  lemma Claims(ok: Goal, k: Case, last: seq<Move>) returns (ms: seq<Move>)
    requires Backwards(ok) && Fits(k) && ok(Released(k), last)
    ensures ok(Sys(k, Reg(Some(0), Request(k, true, None, NewSink(k.head).(starts := 1)), StartLock(0)), Line(k, Data(k), Claiming(k.valid))), ms)
  {
    var sink, c := NewSink(k.head).(starts := 1), Line(k, Data(k), Claiming(k.valid));
    var r0 := Reg(Some(0), Request(k, true, None, sink), StartLock(0));
    var r1 := Reg(Some(0), Request(k, true, None, sink.(started := true)), StartCommit(0, None));
    ms := Claimed(ok, k, last);
    ms := Inner(ok, k, r1, Commit(0), Reg(None, Streaming(k, Idle, false, []), Ready(GotStream(0))), c, ms);
    ms := Inner(ok, k, r0, Lock(0), r1, c, ms);
  }

  lemma Probes(ok: Goal, k: Case, last: seq<Move>) returns (ms: seq<Move>)
    requires Backwards(ok) && Fits(k) && ok(Released(k), last)
    ensures ok(Sys(k, Reg(Some(0), Request(k, true, None, NewSink(k.head)), StartProbe(0)), Line(k, Data(k), Claiming(k.valid))), ms)
  {
    var r := Reg(Some(0), Request(k, true, None, NewSink(k.head)), StartProbe(0));
    var r' := Reg(Some(0), Request(k, true, None, NewSink(k.head).(starts := 1)), StartLock(0));
    ms := Claims(ok, k, last);
    ms := Inner(ok, k, r, Probe(0), r', Line(k, Data(k), Claiming(k.valid)), ms);
  }

  function Waiting(k: Case): HR.State {
    Reg(None, Request(k, false, None, NewSink(k.head)), Ready(Nothing))
  }

  /** StartIngest with the token of the request. */
  lemma Admits(k: Case)
    requires k.now < k.deadline
    ensures var r := Waiting(k);
            && HR.Typed(r) && HR.Enabled(r, StartIngest(0, k.header.requestId, k.header.ingestToken, k.now))
            && HR.Apply(r, StartIngest(0, k.header.requestId, k.header.ingestToken, k.now)) ==
                 Reg(Some(0), Request(k, true, None, NewSink(k.head)), StartProbe(0))
  {
  }

  lemma StartsClaim(ok: Goal, k: Case, last: seq<Move>) returns (ms: seq<Move>)
    requires Backwards(ok) && Fits(k) && ok(Released(k), last)
    ensures ok(Sys(k, Waiting(k), Line(k, Data(k), HaveHeader(k.valid))), ms)
  {
    Admits(k);
    var r := Reg(Some(0), Request(k, true, None, NewSink(k.head)), StartProbe(0));
    ms := Probes(ok, k, last);
    ms := Begins(ok, k, Waiting(k), Line(k, Data(k), HaveHeader(k.valid)), ServerClaim(0, k.now),
                 StartIngest(0, k.header.requestId, k.header.ingestToken, k.now), r, Line(k, Data(k), Claiming(k.valid)), ms);
  }

  // ----- the client -----

  /** The server reads the header that the client sent. */
  ghost predicate HeaderArrives(k: Case)
    requires Fits(k)
  {
    F.Decode(k.frame + Data(k), k.maxHeaderBytes) == Ok((k.valid, Data(k)))
  }

  lemma HeaderApplies(y: System, read: Result<(F.Header, Text), F.FrameFault>)
    requires HR.Typed(y.reg) && At(y, 0) && y.conns[0].server.Accepted? && read.Ok?
    ensures D.Enabled(y, ServerHeader(0, read))
    ensures D.Apply(y, ServerHeader(0, read)) ==
            System(y.reg, y.conns[0 := y.conns[0].(wire := read.value.1, server := HaveHeader(read.value.0))], y.maxHeaderBytes)
  {
  }

  lemma HeaderIsCoded(y: System, read: Result<(F.Header, Text), F.FrameFault>)
    requires At(y, 0) && read == F.Decode(y.conns[0].wire, y.maxHeaderBytes)
    ensures Coded(y, ServerHeader(0, read))
  {
  }

  lemma Joined(y: System, m: Move, y': System)
    requires HR.Typed(y.reg) && D.Enabled(y, m) && Coded(y, m) && D.Apply(y, m) == y'
    ensures Leads(y, m, y')
  {
  }

  /** Whatever the codec reads off the wire, the server goes on with it. */
  lemma HeaderStep(ok: Goal, y: System, read: Result<(F.Header, Text), F.FrameFault>, y': System, rest: seq<Move>) returns (ms: seq<Move>)
    requires Backwards(ok) && HR.Typed(y.reg) && At(y, 0) && y.conns[0].server.Accepted? && read.Ok?
    requires Coded(y, ServerHeader(0, read)) && ok(y', rest)
    requires y' == System(y.reg, y.conns[0 := y.conns[0].(wire := read.value.1, server := HaveHeader(read.value.0))], y.maxHeaderBytes)
    ensures ok(y, ms)
  {
    HeaderApplies(y, read);
    Joined(y, ServerHeader(0, read), y');
    ms := Cons(ok, y, ServerHeader(0, read), y', rest);
  }

  lemma HeaderStates(k: Case)
    requires Fits(k)
    ensures var y, y' := Sys(k, Waiting(k), Line(k, k.frame + Data(k), Accepted)), Sys(k, Waiting(k), Line(k, Data(k), HaveHeader(k.valid)));
            && HR.Typed(y.reg) && At(y, 0) && y.conns[0].server.Accepted? && y.conns[0].wire == k.frame + Data(k) && y.maxHeaderBytes == k.maxHeaderBytes
            && y' == System(y.reg, y.conns[0 := y.conns[0].(wire := Data(k), server := HaveHeader(k.valid))], y.maxHeaderBytes)
  {
    var c, c' := Line(k, k.frame + Data(k), Accepted), Line(k, Data(k), HaveHeader(k.valid));
    assert map[0 := c][0 := c'] == map[0 := c'];
  }

  lemma HeaderRead(ok: Goal, k: Case, y: System, y': System, rest: seq<Move>) returns (ms: seq<Move>)
    requires Backwards(ok) && Fits(k) && HeaderArrives(k) && ok(y', rest)
    requires HR.Typed(y.reg) && At(y, 0) && y.conns[0].server.Accepted? && y.conns[0].wire == k.frame + Data(k) && y.maxHeaderBytes == k.maxHeaderBytes
    requires y' == System(y.reg, y.conns[0 := y.conns[0].(wire := Data(k), server := HaveHeader(k.valid))], y.maxHeaderBytes)
    ensures ok(y, ms)
  {
    var read: Result<(F.Header, Text), F.FrameFault> := Ok((k.valid, Data(k)));
    HeaderIsCoded(y, read);
    ms := HeaderStep(ok, y, read, y', rest);
  }

  lemma HeaderIsRead(ok: Goal, k: Case, rest: seq<Move>) returns (ms: seq<Move>)
    requires Backwards(ok) && Fits(k) && HeaderArrives(k)
    requires ok(Sys(k, Waiting(k), Line(k, Data(k), HaveHeader(k.valid))), rest)
    ensures ok(Sys(k, Waiting(k), Line(k, k.frame + Data(k), Accepted)), ms)
  {
    HeaderStates(k);
    ms := HeaderRead(ok, k, Sys(k, Waiting(k), Line(k, k.frame + Data(k), Accepted)), Sys(k, Waiting(k), Line(k, Data(k), HaveHeader(k.valid))), rest);
  }

  function NewConn(k: Case): Conn {
    Conn(k.header, Ok(k.frame), k.valid, k.body, 0, [], false, NotStarted, Accepted, [])
  }

  /** Header and `n` octets. */
  lemma Sends(ok: Goal, k: Case, rest: seq<Move>) returns (ms: seq<Move>)
    requires Backwards(ok) && Fits(k)
    requires ok(Sys(k, Waiting(k), NewConn(k).(client := Sending, wire := k.frame + Data(k), sent := k.n)), rest)
    ensures ok(Sys(k, Waiting(k), NewConn(k)), ms)
  {
    var c0, r := NewConn(k), Waiting(k);
    var c1 := c0.(client := Sending, wire := k.frame);
    var c2 := c0.(client := Sending, wire := k.frame + Data(k), sent := k.n);
    assert [] + k.frame == k.frame && k.body[0..k.n] == Data(k);
    ms := Local(ok, k, r, c1, ClientSend(0, k.n), c2, rest);
    ms := Local(ok, k, r, c0, ClientHeader(0), c1, ms);
  }

  lemma ConnectApplies(y: System, k: Case)
    requires HR.Typed(y.reg) && y.reg.procs == [Ready(Nothing)] && 0 !in y.conns
    ensures var m := Connect(0, k.header, Ok(k.frame), k.valid, k.body);
            D.Enabled(y, m) && D.Apply(y, m) == System(y.reg, y.conns[0 := NewConn(k)], y.maxHeaderBytes)
  {
  }

  lemma WaitingIsTyped(k: Case)
    ensures HR.Typed(Waiting(k)) && Waiting(k).procs == [Ready(Nothing)]
  {
  }

  lemma Connects(ok: Goal, k: Case, rest: seq<Move>) returns (ms: seq<Move>)
    requires Backwards(ok) && Frames(k.header, Ok(k.frame), k.valid)
    requires ok(Sys(k, Waiting(k), NewConn(k)), rest)
    ensures ok(System(Waiting(k), map[], k.maxHeaderBytes), ms)
  {
    WaitingIsTyped(k);
    ConnectApplies(System(Waiting(k), map[], k.maxHeaderBytes), k);
    assert map[][0 := NewConn(k)] == map[0 := NewConn(k)];
    ms := Cons(ok, System(Waiting(k), map[], k.maxHeaderBytes), Connect(0, k.header, Ok(k.frame), k.valid, k.body), Sys(k, Waiting(k), NewConn(k)), rest);
  }

  lemma Registers(ok: Goal, k: Case, rest: seq<Move>) returns (ms: seq<Move>)
    requires k.now < k.deadline && Backwards(ok) && ok(System(Waiting(k), map[], k.maxHeaderBytes), rest)
    ensures ok(Start(k.maxHeaderBytes), ms)
  {
    var idle := System(HR.State(None, Store(map[], []), [Ready(Nothing)]), map[], k.maxHeaderBytes);
    assert idle.reg.store.Register(k.header.requestId, k.header.ingestToken, k.deadline, k.head) == Waiting(k).store;
    ms := Cons(ok, idle, Move.Registry(HR.Register(k.header.requestId, k.header.ingestToken, k.deadline, k.head, k.now)), System(Waiting(k), map[], k.maxHeaderBytes), rest);
    ms := Cons(ok, Start(k.maxHeaderBytes), Move.Registry(Spawn), idle, ms);
  }

  /** From the registration on, when the client has put header and octets on the wire in one way or another. */
  lemma ToTheClient(ok: Goal, k: Case, last: seq<Move>) returns (ms: seq<Move>)
    requires Backwards(ok) && Fits(k) && ok(Released(k), last) && HeaderArrives(k)
    ensures ok(Sys(k, Waiting(k), Line(k, k.frame + Data(k), Accepted)), ms)
  {
    ms := StartsClaim(ok, k, last);
    ms := HeaderIsRead(ok, k, ms);
  }

  lemma FromTheClient(ok: Goal, k: Case, rest: seq<Move>) returns (ms: seq<Move>)
    requires Backwards(ok) && Fits(k) && Frames(k.header, Ok(k.frame), k.valid)
    requires ok(Sys(k, Waiting(k), NewConn(k).(client := Sending, wire := k.frame + Data(k), sent := k.n)), rest)
    ensures ok(Start(k.maxHeaderBytes), ms)
  {
    ms := Sends(ok, k, rest);
    ms := Connects(ok, k, ms);
    ms := Registers(ok, k, ms);
  }

  /** The server accepts a header of this length. */
  predicate Accepts(header: F.Header, maxHeaderBytes: int)
    requires IsInt64(header.bodyLength) && IsInt64(header.metadata.statusCode)
  {
    F.Encode(header).Ok? && (maxHeaderBytes <= 0 || |F.Payload(F.ValidateHeader(header).value)| <= maxHeaderBytes)
  }

  /** The goal of reaching `z`. */
  lemma Reaching(z: System) returns (ok: Goal)
    requires HR.Typed(z.reg)
    ensures Backwards(ok) && ok(z, []) && forall y, ms :: ok(y, ms) <==> Runs(y, ms) && After(y, ms) == z
  {
    ok := (y, ms) => Runs(y, ms) && After(y, ms) == z;
    forall y, m, y', rest | Leads(y, m, y') && ok(y', rest) ensures ok(y, [m] + rest) {
      assert ([m] + rest)[1..] == rest;
    }
  }
}
