/** A Send can succeed: for every acceptable header and body, and every request that waits under its id and token, there is
    a run of the whole path in which Send returns nil (internal/ingesttcp/client.go, internal/ingesttcp/server.go). */
module DeliverySuccess {
  import opened Octets
  import HR = HeldRequests
  import opened HeldRequests
  import opened Delivery
  import DP = DeliveryProofs
  import opened DeliveryRun
  import opened DeliveryTheorems
  import opened MessagePack
  import F = Frames
  import FP = FrameProofs
  import T = IngestTcp

  /** The client has sent its body and ended its side if the length is unknown. */
  lemma EndsSending(ok: Goal, k: Case, rest: seq<Move>) returns (ms: seq<Move>)
    requires Backwards(ok) && Fits(k) && Complete(k)
    requires ok(Sys(k, Waiting(k), Line(k, k.frame + Data(k), Accepted)), rest)
    ensures ok(Sys(k, Waiting(k), NewConn(k).(client := Sending, wire := k.frame + Data(k), sent := k.n)), ms)
  {
    var c := NewConn(k).(client := Sending, wire := k.frame + Data(k), sent := k.n);
    ms := Local(ok, k, Waiting(k), c, ClientBodyEnd(0), Line(k, k.frame + Data(k), Accepted), rest);
  }

  /** All that was declared has been sent. */
  predicate Complete(k: Case) {
    && k.client == AwaitAck && k.eof == (k.header.bodyLength == F.UNKNOWN_BODY_LENGTH) && k.header.bodyLength >= F.UNKNOWN_BODY_LENGTH
    && k.n == if k.header.bodyLength == F.UNKNOWN_BODY_LENGTH then |k.body| else k.header.bodyLength
  }

  /** The request is out of the map and its close has returned nil. */
  function Gone(k: Case): HR.State
    requires Fits(k)
  {
    var x := Streaming(k, Finished, true, ForWriter(k));
    HR.State(None, Store(map[], [x.(sink := x.sink.(completed := true, closes := 1))]), [Ready(Closed(None))])
  }

  function Over(k: Case): System
    requires Fits(k)
  {
    Sys(k, Gone(k), Line(k, [], Acked(k.valid, 0, k.n)).(client := Returned(None), acks := ['\0']))
  }

  lemma OverIsTyped(k: Case)
    requires Fits(k)
    ensures HR.Typed(Gone(k))
  {
  }

  lemma OverIs(k: Case)
    requires Fits(k) && Complete(k)
    ensures var y, c := Over(k), Over(k).conns[0];
            && c.header == k.header && c.body == k.body && c.client == Returned(None) && |y.reg.store.held| == 1 && y.reg.store.entries == map[]
            && var x := y.reg.store.held[0];
               && x.id == k.header.requestId && x.token == k.header.ingestToken && x.deadline == k.deadline && x.sink.head == k.head
               && x.sink.completed && x.sink.err.None?
               && x.sink.handed == if k.head then [] else if k.header.bodyLength == F.UNKNOWN_BODY_LENGTH then k.body else k.body[..k.header.bodyLength]
  {
    assert k.body[..|k.body|] == k.body;
  }

  function Answering(k: Case): Conn {
    Line(k, [], Acking(k.valid, 0, k.n))
  }

  /** The success octet goes out and is read. */
  lemma Acknowledges(ok: Goal, k: Case) returns (ms: seq<Move>)
    requires Backwards(ok) && Fits(k) && Complete(k) && ok(Over(k), [])
    ensures ok(Sys(k, Gone(k), Answering(k)), ms)
  {
    OverIsTyped(k);
    var c := Line(k, [], Acked(k.valid, 0, k.n)).(acks := ['\0']);
    assert [] + ['\0'] == ['\0'];
    ms := Local(ok, k, Gone(k), c, ClientAck(0), c.(client := Returned(None)), []);
    ms := Local(ok, k, Gone(k), Answering(k), ServerAck(0), c, ms);
  }

  lemma Closes(ok: Goal, k: Case) returns (ms: seq<Move>)
    requires Backwards(ok) && Fits(k) && Complete(k) && ok(Over(k), [])
    ensures ok(Sys(k, Gone(k), Line(k, [], InClose(k.valid, 0, k.n, None))), ms)
  {
    OverIsTyped(k);
    ms := Acknowledges(ok, k);
    ms := Local(ok, k, Gone(k), Line(k, [], InClose(k.valid, 0, k.n, None)), ServerClosed(0), Answering(k), ms);
  }

  lemma Removes(ok: Goal, k: Case) returns (ms: seq<Move>)
    requires Backwards(ok) && Fits(k) && Complete(k) && ok(Over(k), [])
    ensures ok(Released(k), ms)
  {
    ms := Closes(ok, k);
    var x := Streaming(k, Running, true, ForWriter(k));
    var reg := Reg(None, x.(sink := x.sink.(completed := true, closes := 1)), Closing(0, None, Removing(None)));
    assert reg.store.Drop(k.header.requestId).entries == map[];
    ms := Inner(ok, k, reg, CloseRemove(0), Gone(k), Line(k, [], InClose(k.valid, 0, k.n, None)), ms);
  }

  lemma RunOf(k: Case) returns (ms: seq<Move>)
    requires Fits(k) && Complete(k) && HeaderArrives(k) && Frames(k.header, Ok(k.frame), k.valid)
    ensures Runs(Start(k.maxHeaderBytes), ms) && After(Start(k.maxHeaderBytes), ms) == Over(k)
  {
    OverIsTyped(k);
    var ok := Reaching(Over(k));
    ms := Removes(ok, k);
    ms := ToTheClient(ok, k, ms);
    ms := EndsSending(ok, k, ms);
    ms := FromTheClient(ok, k, ms);
  }

  lemma CaseOf(header: F.Header, body: Text, head: bool, deadline: int, now: int, maxHeaderBytes: int) returns (k: Case)
    requires IsInt64(header.bodyLength) && IsInt64(header.metadata.statusCode) && Accepts(header, maxHeaderBytes)
    requires header.bodyLength <= |body| && now < deadline
    ensures k.header == header && k.body == body && k.head == head && k.deadline == deadline && k.now == now && k.maxHeaderBytes == maxHeaderBytes
    ensures Fits(k) && Complete(k) && HeaderArrives(k) && Frames(k.header, Ok(k.frame), k.valid)
  {
    var unknown := header.bodyLength == F.UNKNOWN_BODY_LENGTH;
    var n := if header.bodyLength < 0 then |body| else header.bodyLength;
    k := Case(header, F.Encode(header).value, F.ValidateHeader(header).value, body, n, AwaitAck, unknown, head, deadline, now, maxHeaderBytes);
    FP.FrameRoundTrip(header, body[..n], maxHeaderBytes);
  }

  /** For every header that the server accepts, every body that is long enough, GET or HEAD, and every deadline after
      `now`: a run in which the request is registered and Send returns nil, the waiter released with nil on exactly the
      declared body. */
  lemma SendCanReturnNil(header: F.Header, body: Text, head: bool, deadline: int, now: int, maxHeaderBytes: int) returns (ms: seq<Move>)
    requires IsInt64(header.bodyLength) && IsInt64(header.metadata.statusCode) && Accepts(header, maxHeaderBytes)
    requires header.bodyLength <= |body| && now < deadline
    ensures Runs(Start(maxHeaderBytes), ms)
    ensures var y := After(Start(maxHeaderBytes), ms);
            && 0 in y.conns && y.conns[0].header == header && y.conns[0].body == body && y.conns[0].client == Returned(None)
            && |y.reg.store.held| == 1 && y.reg.store.entries == map[]
            && var x := y.reg.store.held[0];
               && x.id == header.requestId && x.token == header.ingestToken && x.deadline == deadline && x.sink.head == head
               && x.sink.completed && x.sink.err.None?
               && x.sink.handed == if head then [] else if header.bodyLength == F.UNKNOWN_BODY_LENGTH then body else body[..header.bodyLength]
  {
    var k := CaseOf(header, body, head, deadline, now, maxHeaderBytes);
    ms := RunOf(k);
    OverIs(k);
  }

  lemma AcceptedLength(h: F.Header)
    requires IsInt64(h.bodyLength) && IsInt64(h.metadata.statusCode) && F.Encode(h).Ok?
    ensures h.bodyLength >= F.UNKNOWN_BODY_LENGTH
  {
  }

  lemma WantedIsDeclared(c: Conn)
    requires F.UNKNOWN_BODY_LENGTH <= Length(c) <= |c.body|
    ensures T.Wanted(|c.body|, Length(c)) == DP.Declared(c)
  {
  }

  /** What the copying Send of IngestTcp writes is what the client of the step relation puts on the wire: the frame, and of
      the body as much as was declared. */
  lemma SendWritesTheDeclared(c: Conn)
    requires Frames(c.header, c.frame, c.valid) && c.frame.Ok? && Length(c) <= |c.body|
    ensures 0 <= DP.Declared(c) <= |c.body| && T.Whole(c.header, c.body) == c.frame.value + c.body[..DP.Declared(c)]
  {
    AcceptedLength(c.header);
    WantedIsDeclared(c);
  }
}
