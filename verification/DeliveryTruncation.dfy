/** A body of unknown length whose client fails half way is delivered as if it were complete: the connection of the
    failed client is closed (internal/ingesttcp/client.go, DialAndSend), and the server cannot tell that from the end of
    the body (internal/ingesttcp/server.go, copyBody). */
module DeliveryTruncation {
  import opened Octets
  import HR = HeldRequests
  import opened HeldRequests
  import opened Delivery
  import opened DeliveryRun
  import opened DeliveryTheorems
  import opened MessagePack
  import F = Frames
  import FP = FrameProofs

  /** Failure, and the deferred Close. */
  lemma Fails(ok: Goal, k: Case, e: Failure, rest: seq<Move>) returns (ms: seq<Move>)
    requires Backwards(ok) && Fits(k) && k.client == Returned(Some(e)) && k.eof
    requires ok(Sys(k, Waiting(k), Line(k, k.frame + Data(k), Accepted)), rest)
    ensures ok(Sys(k, Waiting(k), NewConn(k).(client := Sending, wire := k.frame + Data(k), sent := k.n)), ms)
  {
    var c := NewConn(k).(client := Sending, wire := k.frame + Data(k), sent := k.n);
    var c' := c.(client := Returned(Some(e)));
    ms := Local(ok, k, Waiting(k), c', ClientClose(0), Line(k, k.frame + Data(k), Accepted), rest);
    ms := Local(ok, k, Waiting(k), c, ClientFail(0, e), c', ms);
  }

  lemma CaseOf(header: F.Header, body: Text, n: nat, e: Failure, maxHeaderBytes: int) returns (k: Case)
    requires IsInt64(header.bodyLength) && IsInt64(header.metadata.statusCode) && Accepts(header, maxHeaderBytes)
    requires header.bodyLength == F.UNKNOWN_BODY_LENGTH && n < |body|
    ensures k.header == header && k.body == body && k.n == n && k.client == Returned(Some(e)) && k.eof && !k.head && k.maxHeaderBytes == maxHeaderBytes
    ensures Fits(k) && HeaderArrives(k) && Frames(k.header, Ok(k.frame), k.valid)
  {
    k := Case(header, F.Encode(header).value, F.ValidateHeader(header).value, body, n, Returned(Some(e)), true, false, 1, 0, maxHeaderBytes);
    FP.FrameRoundTrip(header, body[..n], maxHeaderBytes);
  }

  lemma ReleasedIs(k: Case)
    requires Fits(k)
    ensures HR.Typed(Released(k).reg)
    ensures var y, c := Released(k), Released(k).conns[0];
            && c.header == k.header && c.body == k.body && c.client == k.client
            && |y.reg.store.held| == 1 && FinishedBy(y, 0, 0)
            && var x := y.reg.store.held[0];
               x.id == k.header.requestId && x.sink.completed && x.sink.err.None? && x.sink.head == k.head && x.sink.handed == ForWriter(k)
  {
  }

  lemma RunOf(k: Case, e: Failure) returns (ms: seq<Move>)
    requires Fits(k) && HeaderArrives(k) && Frames(k.header, Ok(k.frame), k.valid) && k.client == Returned(Some(e)) && k.eof
    ensures Runs(Start(k.maxHeaderBytes), ms) && After(Start(k.maxHeaderBytes), ms) == Released(k)
  {
    ReleasedIs(k);
    var ok := Reaching(Released(k));
    ms := ToTheClient(ok, k, []);
    ms := Fails(ok, k, e, ms);
    ms := FromTheClient(ok, k, ms);
  }

  /** For every acceptable header of unknown length, every body and every n short of it: a run in which the client sends
      n octets, fails and returns its error, and the waiter of its request is released with nil on those n octets. */
  lemma FailedClientReleasesWithNil(header: F.Header, body: Text, n: nat, e: Failure, maxHeaderBytes: int) returns (ms: seq<Move>)
    requires IsInt64(header.bodyLength) && IsInt64(header.metadata.statusCode) && Accepts(header, maxHeaderBytes)
    requires header.bodyLength == F.UNKNOWN_BODY_LENGTH && n < |body|
    ensures Runs(Start(maxHeaderBytes), ms)
    ensures var y := After(Start(maxHeaderBytes), ms);
            && 0 in y.conns && y.conns[0].header == header && y.conns[0].body == body && y.conns[0].client == Returned(Some(e))
            && |y.reg.store.held| == 1 && FinishedBy(y, 0, 0)
            && var x := y.reg.store.held[0];
               x.id == header.requestId && x.sink.completed && x.sink.err.None? && !x.sink.head && x.sink.handed == body[..n]
  {
    var k := CaseOf(header, body, n, e, maxHeaderBytes);
    ms := RunOf(k, e);
    ReleasedIs(k);
  }

  // ----- the exact condition -----

  /** At the end of this run the waiter of request `h` has been released with nil by connection `p`, which is for this
      header and body, and the body was not delivered whole. */
  ghost predicate Truncates(maxHeaderBytes: int, ms: seq<Move>, p: nat, h: nat, header: F.Header, body: Text) {
    && Runs(Start(maxHeaderBytes), ms)
    && var y := After(Start(maxHeaderBytes), ms);
       && FinishedBy(y, p, h) && y.conns[p].header == header && y.conns[p].body == body
       && h < |y.reg.store.held| && y.reg.store.held[h].sink.completed && y.reg.store.held[h].sink.err.None?
       && !HasWholeBody(y, y.conns[p], h)
  }

  /** Exactly when nil from Wait can be relied on, for every header that the server accepts and every body: no run
      releases the waiter with nil on less than the whole declared body, if and only if the length is declared or the
      body is empty. */
  lemma NilMeansWholeExactlyWhenDeclared(maxHeaderBytes: int, header: F.Header, body: Text)
    requires IsInt64(header.bodyLength) && IsInt64(header.metadata.statusCode) && Accepts(header, maxHeaderBytes)
    ensures (forall ms, p: nat, h: nat :: !Truncates(maxHeaderBytes, ms, p, h, header, body)) <==>
            header.bodyLength != F.UNKNOWN_BODY_LENGTH || body == []
  {
    if header.bodyLength != F.UNKNOWN_BODY_LENGTH || body == [] {
      forall ms, p: nat, h: nat ensures !Truncates(maxHeaderBytes, ms, p, h, header, body) {
        if Truncates(maxHeaderBytes, ms, p, h, header, body) { NothingIsLost(maxHeaderBytes, ms, p, h); }
      }
    } else {
      var ms := FailedClientReleasesWithNil(header, body, 0, Other(0), maxHeaderBytes);
      assert body[..0] != body;
      assert Truncates(maxHeaderBytes, ms, 0, 0, header, body);
    }
  }

  lemma NothingIsLost(maxHeaderBytes: int, ms: seq<Move>, p: nat, h: nat)
    requires Runs(Start(maxHeaderBytes), ms)
    requires var y := After(Start(maxHeaderBytes), ms);
             && FinishedBy(y, p, h) && h < |y.reg.store.held| && y.reg.store.held[h].sink.completed && y.reg.store.held[h].sink.err.None?
             && (Length(y.conns[p]) >= 0 || y.conns[p].body == [])
    ensures HasWholeBody(After(Start(maxHeaderBytes), ms), After(Start(maxHeaderBytes), ms).conns[p], h)
  {
    WaitNilMeansDelivered(maxHeaderBytes, ms, h);
    WholeWhenAllDeclared(After(Start(maxHeaderBytes), ms), After(Start(maxHeaderBytes), ms).conns[p], h);
  }
}
