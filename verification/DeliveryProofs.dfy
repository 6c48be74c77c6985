/** A client whose Send answered nil had its whole declared body handed to the waiting response. */
module DeliveryProofs {
  import opened Octets
  import HR = HeldRequests
  import opened HeldRequests
  import HI = HeldInvariants
  import F = Frames
  import FP = FrameProofs
  import D = Delivery
  import opened Delivery

  /** What the waiting client is to receive of `t`: nothing for HEAD. */
  function Shown(x: Held, t: Text): Text {
    if x.sink.head then [] else t
  }

  /** All that Send undertakes to deliver: the declared length, or the whole body. */
  function Declared(c: Conn): int {
    if Length(c) >= 0 then Length(c) else |c.body|
  }

  /** `got` octets are all that was sent, and no more will be: the declared length, or whatever came before the end of
      the stream. */
  predicate AllSent(c: Conn, got: nat) {
    got == c.sent <= |c.body| && if Length(c) >= 0 then got == Length(c) else c.eof
  }

  predicate Untouched(c: Conn) {
    c.wire == [] && c.sent == 0 && ((c.client.NotStarted? && !c.eof) || (c.client.Returned? && c.client.err.Some?))
  }

  predicate HasGot(s: ServerAt) {
    s.Copying? || s.InWrite? || s.ToClose? || s.InClose? || s.Acking? || s.Acked? || s.AckLost?
  }

  function Got(s: ServerAt): nat {
    if HasGot(s) then s.got else 0
  }

  /** The client side and the channel. */
  predicate WireOk(c: Conn)
  {
    && c.sent <= |c.body|
    && (c.frame.Ok? ==> c.valid.bodyLength == Length(c) >= F.UNKNOWN_BODY_LENGTH)
    && (c.client.NotStarted? ==> Untouched(c) && c.server.Accepted?)
    && (Length(c) >= 0 ==> c.sent <= Length(c) || Untouched(c))
    && (c.eof ==> !c.client.NotStarted? && !c.client.Sending?)
    && (c.client.AwaitAck? || c.client == Returned(None) ==> c.sent == Declared(c))
    && (c.client.Returned? && c.client.err.None? ==> c.server.Acked?)
    && (c.acks != [] ==> c.server.Acked?)
    && (if c.server.Accepted? then
          Untouched(c) || (c.frame.Ok? && c.wire == c.frame.value + c.body[..c.sent])
        else
          c.server.Ended? || (c.frame.Ok? && c.server.hd == c.valid
                              && Got(c.server) <= c.sent && c.wire == c.body[Got(c.server)..c.sent]))
    && (c.server.ToClose? || c.server.InClose? ==> c.server.e.None? ==> AllSent(c, c.server.got))
    && (c.server.Acking? || c.server.Acked? || c.server.AckLost? ==> AllSent(c, c.server.got))
  }

  ghost predicate Live(y: System, hd: F.Header, h: nat) {
    h < |y.reg.store.held| && y.reg.store.held[h].stream.Some? && y.reg.store.held[h].id == hd.requestId
  }

  ghost predicate Unclosed(y: System, hd: F.Header, h: nat) {
    Live(y, hd, h) && y.reg.store.held[h].stream.value.once.Idle?
  }

  /** Exactly the first `n` octets of the body have been handed over. */
  ghost predicate Handed(y: System, c: Conn, h: nat, n: int)
    requires h < |y.reg.store.held| && c.sent <= |c.body|
  {
    0 <= n <= |c.body| && y.reg.store.held[h].sink.handed == Shown(y.reg.store.held[h], c.body[..n])
  }

  ghost predicate WriteOk(y: System, p: nat, c: Conn)
    requires p < |y.reg.procs| && c.server.InWrite? && c.sent <= |c.body|
  {
    var s, call := c.server, y.reg.procs[p];
    && Unclosed(y, s.hd, s.h) && |s.chunk| <= s.got <= c.sent && s.chunk == c.body[s.got - |s.chunk|..s.got]
    && match call
       case Writing(h, data, _, at) =>
         && h == s.h && data == s.chunk
         && (at.Putting? || at.Settling? ==> !y.reg.store.held[h].sink.head)
         && Handed(y, c, h, s.got - |s.chunk| + (match at case Settling(n) => n case Rechecking(n) => n case _ => 0))
       case Ready(answer) =>
         answer.Wrote? && (answer.werr.None? ==> Handed(y, c, s.h, s.got - |s.chunk| + answer.n))
       case _ => false
  }

  ghost predicate CloseOk(y: System, p: nat, c: Conn)
    requires p < |y.reg.procs| && c.server.InClose? && c.sent <= |c.body|
  {
    var s, call := c.server, y.reg.procs[p];
    && Live(y, s.hd, s.h)
    && (s.e.None? ==> Handed(y, c, s.h, s.got))
    && match call
       case Closing(h, e, _) => h == s.h && e == s.e
       case Ready(answer) =>
         answer.Closed? && y.reg.store.held[s.h].sink.completed && y.reg.store.held[s.h].sink.err == answer.cerr
       case _ => false
  }

  /** The server side and its part in the registry protocol. */
  ghost predicate ServerOk(y: System, p: nat, c: Conn)
    requires p < |y.reg.procs| && c.sent <= |c.body|
  {
    var call := y.reg.procs[p];
    match c.server
    case Claiming(hd) =>
      (|| (HR.Starting(call) && call.h < |y.reg.store.held| && y.reg.store.held[call.h].id == hd.requestId)
       || (call.Notifying? && !call.reply.GotStream?)
       || (call.Ready? && (call.answer.GotStream? ==> Unclosed(y, hd, call.answer.h) && Handed(y, c, call.answer.h, 0))))
    case Copying(hd, h, got) => call.Ready? && Unclosed(y, hd, h) && Handed(y, c, h, got)
    case InWrite(_, _, _, _) => WriteOk(y, p, c)
    case ToClose(hd, h, got, e) => call.Ready? && Unclosed(y, hd, h) && (e.None? ==> Handed(y, c, h, got))
    case InClose(_, _, _, _) => CloseOk(y, p, c)
    case Acking(hd, h, got) => call.Ready? && Delivered(y, c, hd, h, got)
    case Acked(hd, h, got) => call.Ready? && Delivered(y, c, hd, h, got)
    case AckLost(hd, h, got) => call.Ready? && Delivered(y, c, hd, h, got)
    case _ => call.Ready?
  }

  ghost predicate Delivered(y: System, c: Conn, hd: F.Header, h: nat, got: nat)
    requires c.sent <= |c.body|
  {
    && Live(y, hd, h) && Handed(y, c, h, got)
    && y.reg.store.held[h].sink.completed && y.reg.store.held[h].sink.err.None?
  }

  ghost predicate ConnOk(y: System, p: nat)
    requires p in y.conns
  {
    p < |y.reg.procs| && WireOk(y.conns[p]) && ServerOk(y, p, y.conns[p])
  }

  /** The request whose stream the connection holds or is claiming. */
  ghost function Owner(y: System, p: nat): Option<nat>
    requires At(y, p)
  {
    var s, call := y.conns[p].server, y.reg.procs[p];
    if HasGot(s) then Some(s.h)
    else if s.Claiming? && HR.Starting(call) then Some(call.h)
    else if s.Claiming? && call.Ready? && call.answer.GotStream? then Some(call.answer.h)
    else None
  }

  ghost predicate Bystander(call: Call) {
    (call.Ready? && !call.answer.GotStream?) || (call.Notifying? && !call.reply.GotStream?)
  }

  ghost predicate Inv(y: System) {
    && HI.Inv(y.reg, false)
    && (forall p <- y.conns :: ConnOk(y, p))
    && (forall p :: 0 <= p < |y.reg.procs| && p !in y.conns ==> Bystander(y.reg.procs[p]))
    && (forall p, q :: p in y.conns && q in y.conns && Owner(y, p).Some? && Owner(y, p) == Owner(y, q) ==> p == q)
  }

  // ----- what a step leaves alone -----

  ghost predicate Same(x: Held, x': Held) {
    && x'.id == x.id && x'.sink.head == x.sink.head && x'.sink.handed == x.sink.handed
    && (x.stream.Some? ==> x'.stream.Some? && x'.stream.value.once == x.stream.value.once)
    && (x.sink.completed ==> x'.sink.completed && x'.sink.err == x.sink.err)
  }

  /** The steps that hand octets over or move a stream's once, seen from request `h`. */
  ghost predicate Touches(s: HR.State, step: HR.Step, h: nat)
    requires HR.Typed(s) && HR.Enabled(s, step)
  {
    || ((step.WritePut? || step.CloseRemove?) && s.procs[step.p].h == h)
    || (step.BeginClose? && step.h == h)
  }

  lemma StepLeavesSame(s: HR.State, step: HR.Step, h: nat)
    requires HR.Typed(s) && HR.Enabled(s, step) && h < |s.store.held|
    requires step.Commit? ==> s.store.held[s.procs[step.p].h].stream.None?
    requires !Touches(s, step, h)
    ensures h < |HR.Apply(s, step).store.held| && Same(s.store.held[h], HR.Apply(s, step).store.held[h])
  {
    if step.Register? || step.StartIngest? || step.Commit? || step.Cancel? || step.Expire? || step.CloseRemove? {
      MapStepLeavesSame(s, step, h);
    }
  }

  lemma MapStepLeavesSame(s: HR.State, step: HR.Step, h: nat)
    requires HR.Typed(s) && HR.Enabled(s, step) && h < |s.store.held|
    requires step.Register? || step.StartIngest? || step.Commit? || step.Cancel? || step.Expire? || step.CloseRemove?
    requires step.Commit? ==> s.store.held[s.procs[step.p].h].stream.None?
    requires !Touches(s, step, h)
    ensures h < |HR.Apply(s, step).store.held| && Same(s.store.held[h], HR.Apply(s, step).store.held[h])
  {
  }

  lemma OtherProcsStay(s: HR.State, step: HR.Step, p: nat)
    requires HR.Typed(s) && HR.Enabled(s, step) && p < |s.procs|
    requires !step.Spawn? && !step.Register? && !step.CtxDone? ==> step.p != p
    ensures p < |HR.Apply(s, step).procs| && HR.Apply(s, step).procs[p] == s.procs[p]
  {
  }

  /** The part of the registry that a connection depends on is as before. */
  ghost predicate Keeps(y: System, y': System, p: nat, h: nat) {
    && p < |y.reg.procs| && p < |y'.reg.procs| && y'.reg.procs[p] == y.reg.procs[p]
    && h < |y.reg.store.held| && h < |y'.reg.store.held| && Same(y.reg.store.held[h], y'.reg.store.held[h])
  }

  lemma WriteStays(y: System, y': System, p: nat, c: Conn)
    requires c.server.InWrite? && Keeps(y, y', p, c.server.h) && c.sent <= |c.body| && WriteOk(y, p, c)
    ensures WriteOk(y', p, c)
  {
  }

  lemma CloseStays(y: System, y': System, p: nat, c: Conn)
    requires c.server.InClose? && Keeps(y, y', p, c.server.h) && c.sent <= |c.body| && CloseOk(y, p, c)
    ensures CloseOk(y', p, c)
  {
  }

  lemma ServerStays(y: System, y': System, p: nat, c: Conn)
    requires p < |y.reg.procs| && p < |y'.reg.procs| && y'.reg.procs[p] == y.reg.procs[p] && c.sent <= |c.body|
    requires ServerOk(y, p, c)
    requires HasGot(c.server) ==> Keeps(y, y', p, c.server.h)
    requires c.server.Claiming? && HR.Starting(y.reg.procs[p]) ==> Keeps(y, y', p, y.reg.procs[p].h)
    requires c.server.Claiming? && y.reg.procs[p].Ready? && y.reg.procs[p].answer.GotStream? ==> Keeps(y, y', p, y.reg.procs[p].answer.h)
    ensures ServerOk(y', p, c)
  {
    if c.server.InWrite? { WriteStays(y, y', p, c); }
    else if c.server.InClose? { CloseStays(y, y', p, c); }
  }

  lemma StageHasStream(y: System, p: nat, c: Conn)
    requires p < |y.reg.procs| && c.sent <= |c.body| && ServerOk(y, p, c) && HasGot(c.server)
    ensures c.server.h < |y.reg.store.held| && y.reg.store.held[c.server.h].stream.Some?
  {
    match c.server
    case InWrite(hd, h, _, _) => assert WriteOk(y, p, c); assert Unclosed(y, hd, h);
    case InClose(hd, h, _, _) => assert CloseOk(y, p, c); assert Live(y, hd, h);
    case _ =>
  }

  lemma OwnerHasStream(y: System, p: nat)
    requires p in y.conns && ConnOk(y, p) && Owner(y, p).Some?
    ensures var h := Owner(y, p).value;
            h < |y.reg.store.held| && (y.reg.store.held[h].stream.Some? || (HR.Starting(y.reg.procs[p]) && y.reg.procs[p].h == h))
  {
    var c := y.conns[p];
    assert c.sent <= |c.body| && ServerOk(y, p, c);
    if HasGot(c.server) { StageHasStream(y, p, c); }
  }

  lemma OwnerIsClaimed(y: System, p: nat)
    requires HI.Inv(y.reg, false) && p in y.conns && ConnOk(y, p) && Owner(y, p).Some?
    ensures Owner(y, p).value < |y.reg.store.held| && y.reg.store.held[Owner(y, p).value].claimed
  {
    OwnerHasStream(y, p);
    HeldFacts(y.reg, Owner(y, p).value);
    ProcFacts(y.reg, p);
  }

  lemma HeldFacts(s: HR.State, h: nat)
    requires HI.Inv(s, false) && h < |s.store.held|
    ensures HI.SinkOk(s.store.held[h])
  {
    assert HI.HeldOk(s, h, false);
  }

  lemma ProcFacts(s: HR.State, p: nat)
    requires HI.Inv(s, false) && p < |s.procs|
    ensures HI.ProcOk(s, p)
  {
  }

  lemma ConnStays(y: System, y': System, p: nat)
    requires HI.Inv(y.reg, false) && p in y.conns && ConnOk(y, p)
    requires At(y', p) && y'.conns[p] == y.conns[p] && y'.reg.procs[p] == y.reg.procs[p]
    requires Owner(y, p).Some? && Owner(y, p).value < |y.reg.store.held| ==>
               Keeps(y, y', p, Owner(y, p).value)
    ensures ConnOk(y', p) && Owner(y', p) == Owner(y, p)
  {
    if Owner(y, p).Some? { OwnerIsClaimed(y, p); }
    ServerStays(y, y', p, y.conns[p]);
  }

  // ----- one move concerns one connection -----

  ghost predicate Fresh(y: System, p: nat, o: Option<nat>) {
    o.Some? ==> forall q :: q in y.conns && At(y, q) && q != p ==> Owner(y, q) != o
  }

  lemma OneConnMoves(y: System, y': System, p: nat)
    requires Inv(y) && HI.Inv(y'.reg, false) && p in y.conns && y'.conns.Keys == y.conns.Keys
    requires forall q :: q in y.conns && q != p ==> y'.conns[q] == y.conns[q]
    requires |y'.reg.procs| == |y.reg.procs|
    requires forall q :: 0 <= q < |y.reg.procs| && q != p ==> y'.reg.procs[q] == y.reg.procs[q]
    requires forall q :: q in y.conns && q != p && Owner(y, q).Some? ==> Keeps(y, y', q, Owner(y, q).value)
    requires ConnOk(y', p) && (Owner(y', p) == Owner(y, p) || Fresh(y, p, Owner(y', p)))
    ensures Inv(y')
  {
    forall q | q in y'.conns ensures ConnOk(y', q) && (q != p ==> Owner(y', q) == Owner(y, q)) {
      assert ConnOk(y, q);
      if q != p { ConnStays(y, y', q); }
    }
  }

  /** A move that leaves the registry alone. */
  lemma LocalMove(y: System, y': System, p: nat)
    requires Inv(y) && p in y.conns && p in y'.conns && y'.reg == y.reg && y'.conns == y.conns[p := y'.conns[p]]
    requires ConnOk(y', p) && (Owner(y', p) == Owner(y, p) || Owner(y', p).None?)
    ensures Inv(y')
  {
    assert ConnOk(y, p);
    forall q | q in y.conns && q != p && Owner(y, q).Some? ensures Keeps(y, y', q, Owner(y, q).value) {
      assert ConnOk(y, q);
      OwnerIsClaimed(y, q);
    }
    OneConnMoves(y, y', p);
  }

  // ----- the client's moves -----

  lemma ClientHeaderWire(c: Conn, c': Conn)
    requires WireOk(c) && c.client.NotStarted?
    requires c' == match c.frame
                   case Err(_) => c.(client := Returned(Some(Other(0))))
                   case Ok(frame) => c.(client := Sending, wire := c.wire + frame)
    ensures WireOk(c')
  {
    if c'.client.Sending? {
      assert c.body[..0] == [];
      assert c'.wire == c.frame.value + c.body[..c.sent];
    }
  }

  lemma SliceGrows(b: Text, i: nat, j: nat, k: nat)
    requires i <= j <= k <= |b|
    ensures b[i..j] + b[j..k] == b[i..k]
  {
  }

  lemma ClientSendWire(c: Conn, c': Conn, n: nat)
    requires WireOk(c) && c.client.Sending? && c.sent + n <= |c.body| && (Length(c) >= 0 ==> c.sent + n <= Length(c))
    requires c' == c.(wire := c.wire + c.body[c.sent..c.sent + n], sent := c.sent + n)
    ensures WireOk(c')
  {
    var chunk := c.body[c.sent..c.sent + n];
    if c.server.Accepted? {
      assert c.body[..c.sent] + chunk == c.body[..c.sent + n];
      Glue(c.frame.value, c.body[..c.sent], chunk);
    } else if !c.server.Ended? {
      SliceGrows(c.body, Got(c.server), c.sent, c'.sent);
    }
  }

  lemma ClientEndWire(c: Conn, c': Conn)
    requires WireOk(c) && c.client.Sending? && (c.sent == |c.body| || c.sent == Length(c))
    requires c' == if Length(c) == F.UNKNOWN_BODY_LENGTH then c.(eof := true, client := AwaitAck)
                   else if c.sent == Length(c) then c.(client := AwaitAck)
                   else c.(client := Returned(Some(UnexpectedEOF)))
    ensures WireOk(c')
  {
  }

  predicate ClientMove(m: Move) {
    m.ClientHeader? || m.ClientSend? || m.ClientBodyEnd? || m.ClientFail? || m.ClientClose? || m.ClientAck?
  }

  lemma ClientWire(y: System, m: Move)
    requires HR.Typed(y.reg) && ClientMove(m) && D.Enabled(y, m) && WireOk(y.conns[m.p])
    ensures WireOk(MoveConn(y, m, m.p))
  {
    var c, c' := y.conns[m.p], MoveConn(y, m, m.p);
    match m
    case ClientHeader(_) => ClientHeaderWire(c, c');
    case ClientSend(_, n) => ClientSendWire(c, c', n);
    case ClientBodyEnd(_) => ClientEndWire(c, c');
    case _ =>
  }

  /** The server's part does not depend on what the client does next. */
  lemma ServerMonotone(y: System, y': System, p: nat, c: Conn, c': Conn)
    requires y'.reg == y.reg && c'.server == c.server && c'.body == c.body && c.sent <= c'.sent <= |c.body|
    requires p < |y.reg.procs| && ServerOk(y, p, c)
    ensures ServerOk(y', p, c')
  {
    match c.server
    case InWrite(_, _, _, _) => WriteMonotone(y, y', p, c, c');
    case InClose(_, _, _, _) => CloseMonotone(y, y', p, c, c');
    case _ =>
  }

  lemma WriteMonotone(y: System, y': System, p: nat, c: Conn, c': Conn)
    requires y'.reg == y.reg && c'.server == c.server && c'.body == c.body && c.sent <= c'.sent <= |c.body|
    requires p < |y.reg.procs| && c.server.InWrite? && WriteOk(y, p, c)
    ensures WriteOk(y', p, c')
  {
  }

  lemma CloseMonotone(y: System, y': System, p: nat, c: Conn, c': Conn)
    requires y'.reg == y.reg && c'.server == c.server && c'.body == c.body && c.sent <= c'.sent <= |c.body|
    requires p < |y.reg.procs| && c.server.InClose? && CloseOk(y, p, c)
    ensures CloseOk(y', p, c')
  {
  }

  lemma ClientKeeps(y: System, m: Move)
    requires HR.Typed(y.reg) && ClientMove(m) && D.Enabled(y, m)
    ensures var c, c', y' := y.conns[m.p], MoveConn(y, m, m.p), D.Apply(y, m);
            c'.server == c.server && c'.body == c.body && c'.sent >= c.sent && y'.reg == y.reg && y'.conns == y.conns[m.p := c']
  {
  }

  lemma ClientMoves(y: System, m: Move)
    requires HR.Typed(y.reg) && ClientMove(m) && D.Enabled(y, m)
    requires ConnOk(y, m.p)
    ensures ConnOk(D.Apply(y, m), m.p) && Owner(D.Apply(y, m), m.p) == Owner(y, m.p)
  {
    ClientWire(y, m);
    ClientKeeps(y, m);
    ServerMonotone(y, D.Apply(y, m), m.p, y.conns[m.p], MoveConn(y, m, m.p));
  }

  // ----- the server's moves that leave the registry alone -----

  /** What was read off the wire, once the header is complete. */
  predicate ReadsHeader(c: Conn, read: Result<(F.Header, Text), F.FrameFault>) {
    !c.client.NotStarted? && c.sent <= |c.body| && (read.Ok? ==> c.frame.Ok? && read.value == (c.valid, c.body[..c.sent]))
  }

  /** What the codec contributes: a complete header read off the wire is the one the client sent. */
  lemma HeaderReadIsHeaderSent(c: Conn, read: Result<(F.Header, Text), F.FrameFault>, maxHeaderBytes: int)
    requires WireOk(c) && c.server.Accepted? && Frames(c.header, c.frame, c.valid)
    requires read == F.Decode(c.wire, maxHeaderBytes) && (read != Err(F.Incomplete) || c.eof)
    ensures ReadsHeader(c, read)
  {
    if !Untouched(c) { FP.FrameRoundTrip(c.header, c.body[..c.sent], maxHeaderBytes); }
  }

  lemma ServerHeaderWire(c: Conn, c': Conn, read: Result<(F.Header, Text), F.FrameFault>)
    requires WireOk(c) && c.server.Accepted? && ReadsHeader(c, read)
    requires c' == match read
                   case Err(_) => c.(server := Ended)
                   case Ok((hd, rest)) => c.(wire := rest, server := HaveHeader(hd))
    ensures WireOk(c')
  {
    if read.Ok? { assert c.body[0..c.sent] == c.body[..c.sent]; }
  }

  /** A move of the server process that only inspects its own answers. */
  predicate ServerMove(m: Move) {
    m.ServerClaimed? || m.ServerWrote? || m.ServerBodyEnd? || m.ServerReadFail? || m.ServerClosed? || m.ServerAck? || m.ServerAckFail?
  }

  lemma BodyEndIsAllSent(c: Conn)
    requires WireOk(c) && c.server.Copying?
    requires if c.server.hd.bodyLength >= 0 then c.server.got == c.server.hd.bodyLength else c.wire == [] && c.eof
    ensures AllSent(c, c.server.got)
  {
    if c.server.hd.bodyLength < 0 {
      assert |c.wire| == c.sent - c.server.got;
    }
  }

  lemma ServerWire(y: System, m: Move)
    requires HR.Typed(y.reg) && ServerMove(m) && D.Enabled(y, m) && WireOk(y.conns[m.p])
    ensures WireOk(MoveConn(y, m, m.p))
  {
    if m.ServerBodyEnd? { BodyEndIsAllSent(y.conns[m.p]); }
    else if m.ServerWrote? { WroteWire(y, m); }
    else if m.ServerClaimed? { ClaimedWire(y, m); }
    else { EndingWire(y, m); }
  }

  lemma WroteWire(y: System, m: Move)
    requires HR.Typed(y.reg) && m.ServerWrote? && D.Enabled(y, m) && WireOk(y.conns[m.p])
    ensures WireOk(MoveConn(y, m, m.p))
  {
  }

  lemma ClaimedWire(y: System, m: Move)
    requires HR.Typed(y.reg) && m.ServerClaimed? && D.Enabled(y, m) && WireOk(y.conns[m.p])
    ensures WireOk(MoveConn(y, m, m.p))
  {
  }

  lemma EndingWire(y: System, m: Move)
    requires HR.Typed(y.reg) && (m.ServerReadFail? || m.ServerClosed? || m.ServerAck? || m.ServerAckFail?)
    requires D.Enabled(y, m) && WireOk(y.conns[m.p])
    ensures WireOk(MoveConn(y, m, m.p))
  {
  }

  lemma ClaimedServer(y: System, m: Move)
    requires HR.Typed(y.reg) && m.ServerClaimed? && D.Enabled(y, m) && y.conns[m.p].sent <= |y.conns[m.p].body|
    requires ServerOk(y, m.p, y.conns[m.p])
    ensures ServerOk(D.Apply(y, m), m.p, MoveConn(y, m, m.p))
  {
  }

  lemma WroteServer(y: System, m: Move)
    requires HR.Typed(y.reg) && m.ServerWrote? && D.Enabled(y, m) && y.conns[m.p].sent <= |y.conns[m.p].body|
    requires WriteOk(y, m.p, y.conns[m.p])
    ensures ServerOk(D.Apply(y, m), m.p, MoveConn(y, m, m.p))
  {
  }

  lemma ClosedServer(y: System, m: Move)
    requires HR.Typed(y.reg) && m.ServerClosed? && D.Enabled(y, m) && y.conns[m.p].sent <= |y.conns[m.p].body|
    requires CloseOk(y, m.p, y.conns[m.p])
    ensures ServerOk(D.Apply(y, m), m.p, MoveConn(y, m, m.p))
  {
  }

  lemma CopyEndServer(y: System, m: Move)
    requires HR.Typed(y.reg) && (m.ServerBodyEnd? || m.ServerReadFail?) && D.Enabled(y, m) && y.conns[m.p].sent <= |y.conns[m.p].body|
    requires ServerOk(y, m.p, y.conns[m.p])
    ensures ServerOk(D.Apply(y, m), m.p, MoveConn(y, m, m.p))
  {
  }

  lemma AckServer(y: System, m: Move)
    requires HR.Typed(y.reg) && (m.ServerAck? || m.ServerAckFail?) && D.Enabled(y, m) && y.conns[m.p].sent <= |y.conns[m.p].body|
    requires ServerOk(y, m.p, y.conns[m.p])
    ensures ServerOk(D.Apply(y, m), m.p, MoveConn(y, m, m.p))
  {
  }

  lemma ServerOwner(y: System, m: Move)
    requires HR.Typed(y.reg) && ServerMove(m) && D.Enabled(y, m)
    ensures At(D.Apply(y, m), m.p)
    ensures var y', o := D.Apply(y, m), Owner(D.Apply(y, m), m.p);
            y'.reg == y.reg && y'.conns == y.conns[m.p := MoveConn(y, m, m.p)] && (o == Owner(y, m.p) || o.None?)
  {
  }

  lemma ServerMoves(y: System, m: Move)
    requires HR.Typed(y.reg) && ServerMove(m) && D.Enabled(y, m) && ConnOk(y, m.p)
    ensures ConnOk(D.Apply(y, m), m.p)
  {
    var c := y.conns[m.p];
    ServerWire(y, m);
    ServerOwner(y, m);
    if m.ServerClaimed? { ClaimedServer(y, m); }
    else if m.ServerWrote? { assert WriteOk(y, m.p, c); WroteServer(y, m); }
    else if m.ServerClosed? { assert CloseOk(y, m.p, c); ClosedServer(y, m); }
    else if m.ServerBodyEnd? || m.ServerReadFail? { CopyEndServer(y, m); }
    else { AckServer(y, m); }
  }

  lemma HeaderMoves(y: System, m: Move)
    requires HR.Typed(y.reg) && m.ServerHeader? && D.Enabled(y, m) && ConnOk(y, m.p)
    requires ReadsHeader(y.conns[m.p], m.read)
    ensures ConnOk(D.Apply(y, m), m.p) && Owner(D.Apply(y, m), m.p).None?
    ensures D.Apply(y, m).reg == y.reg && D.Apply(y, m).conns == y.conns[m.p := D.Apply(y, m).conns[m.p]]
  {
    HeaderLeadsTo(y, D.Apply(y, m), m.p, m.read);
  }

  /** The same for any system that differs in this connection as the move says. */
  lemma HeaderLeadsTo(y: System, y': System, p: nat, read: Result<(F.Header, Text), F.FrameFault>)
    requires p in y.conns && ConnOk(y, p) && y.conns[p].server.Accepted? && ReadsHeader(y.conns[p], read)
    requires y'.reg == y.reg && p in y'.conns
    requires y'.conns[p] == match read
                            case Err(_) => y.conns[p].(server := Ended)
                            case Ok((hd, rest)) => y.conns[p].(wire := rest, server := HaveHeader(hd))
    ensures ConnOk(y', p) && Owner(y', p).None?
  {
    ServerHeaderWire(y.conns[p], y'.conns[p], read);
  }

  // ----- the server's moves that begin a registry call -----

  /** Starting a call concerns the goroutine's own connection only. */
  lemma OthersKept(y: System, y': System, p: nat, q: nat, step: HR.Step)
    requires Inv(y) && HR.Typed(y.reg) && HR.Enabled(y.reg, step) && y'.reg == HR.Apply(y.reg, step)
    requires p in y.conns && q in y.conns && q != p && Owner(y, q).Some?
    requires step.Spawn? || step.Register? || step.CtxDone? || step.p == p
    requires step.BeginClose? ==> Owner(y, p) == Some(step.h)
    requires step.WritePut? || step.CloseRemove? ==> Owner(y, p) == Some(y.reg.procs[p].h)
    ensures Keeps(y, y', q, Owner(y, q).value)
  {
    assert ConnOk(y, q) && ConnOk(y, p);
    OwnerIsClaimed(y, q);
    OtherProcsStay(y.reg, step, q);
    if step.Commit? { ProcFacts(y.reg, step.p); }
    StepLeavesSame(y.reg, step, Owner(y, q).value);
  }

  /** What StartIngest leaves the claiming goroutine with. */
  lemma ClaimCall(s: HR.State, step: HR.Step)
    requires HR.Typed(s) && step.StartIngest? && HR.Enabled(s, step)
    ensures var s' := HR.Apply(s, step);
            && step.p < |s'.procs|
            && var call := s'.procs[step.p];
               || (call.StartProbe? && call.h < |s.store.held| && call.h < |s'.store.held| && !s.store.held[call.h].claimed
                   && s'.store.held[call.h].id == step.id)
               || (call.Notifying? && !call.reply.GotStream?)
               || (call.Ready? && !call.answer.GotStream?)
  {
  }

  lemma ClaimServer(y: System, m: Move)
    requires HR.Typed(y.reg) && m.ServerClaim? && D.Enabled(y, m) && ConnOk(y, m.p)
    ensures ConnOk(D.Apply(y, m), m.p)
    ensures var o := Owner(D.Apply(y, m), m.p);
            o.Some? ==> o.value < |y.reg.store.held| && !y.reg.store.held[o.value].claimed
  {
    var step := RegistryStep(y, m).value;
    ClaimCall(y.reg, step);
    ClaimConn(y, D.Apply(y, m), m.p);
  }

  lemma ClaimConn(y: System, y': System, p: nat)
    requires p in y.conns && WireOk(y.conns[p]) && y.conns[p].server.HaveHeader?
    requires At(y', p) && y'.conns[p] == y.conns[p].(server := Claiming(y.conns[p].server.hd))
    requires var call := y'.reg.procs[p];
             || (call.StartProbe? && call.h < |y.reg.store.held| && call.h < |y'.reg.store.held|
                 && !y.reg.store.held[call.h].claimed && y'.reg.store.held[call.h].id == y.conns[p].server.hd.requestId)
             || (call.Notifying? && !call.reply.GotStream?)
             || (call.Ready? && !call.answer.GotStream?)
    ensures ConnOk(y', p)
    ensures Owner(y', p).Some? ==> Owner(y', p).value < |y.reg.store.held| && !y.reg.store.held[Owner(y', p).value].claimed
  {
  }

  lemma ReadWire(c: Conn, c': Conn, n: nat)
    requires WireOk(c) && c.server.Copying? && 0 < n <= |c.wire|
    requires c' == c.(wire := c.wire[n..], server := InWrite(c.server.hd, c.server.h, c.server.got + n, c.wire[..n]))
    ensures WireOk(c') && c'.server.got <= c'.sent && c'.server.chunk == c.body[c.server.got..c'.server.got]
  {
    assert c.wire[n..] == c.body[c.server.got + n..c.sent];
    assert c.wire[..n] == c.body[c.server.got..c.server.got + n];
  }

  lemma ReadServer(y: System, m: Move)
    requires HR.Typed(y.reg) && m.ServerRead? && D.Enabled(y, m) && ConnOk(y, m.p)
    ensures ConnOk(D.Apply(y, m), m.p) && Owner(D.Apply(y, m), m.p) == Owner(y, m.p)
    ensures Owner(y, m.p) == Some(y.conns[m.p].server.h)
  {
    ReadWire(y.conns[m.p], MoveConn(y, m, m.p), m.n);
    assert WriteOk(D.Apply(y, m), m.p, MoveConn(y, m, m.p));
  }

  lemma CloseServer(y: System, m: Move)
    requires HR.Typed(y.reg) && m.ServerClose? && D.Enabled(y, m) && ConnOk(y, m.p)
    ensures ConnOk(D.Apply(y, m), m.p) && Owner(D.Apply(y, m), m.p) == Owner(y, m.p)
    ensures Owner(y, m.p) == Some(y.conns[m.p].server.h)
  {
    assert CloseOk(D.Apply(y, m), m.p, MoveConn(y, m, m.p));
  }

  // ----- registry steps inside a call -----

  lemma StartStep(y: System, y': System, c: Conn, step: HR.Step)
    requires HR.Typed(y.reg) && HR.Enabled(y.reg, step) && y'.reg == HR.Apply(y.reg, step)
    requires step.Probe? || step.Lock? || step.Commit? || step.Poison? || step.Tell?
    requires HI.ProcOk(y.reg, step.p)
    requires HR.Starting(y.reg.procs[step.p]) ==> HI.SinkOk(y.reg.store.held[y.reg.procs[step.p].h])
    requires c.sent <= |c.body| && c.server.Claiming? && ServerOk(y, step.p, c)
    ensures ServerOk(y', step.p, c)
  {
    assert c.body[..0] == [];
  }

  lemma WriteStep(y: System, y': System, c: Conn, step: HR.Step)
    requires HR.Typed(y.reg) && HR.Enabled(y.reg, step) && y'.reg == HR.Apply(y.reg, step)
    requires step.WriteProbe? || step.WriteLock? || step.WriteSettle? || step.WriteRecheck?
    requires c.sent <= |c.body| && c.server.InWrite? && WriteOk(y, step.p, c)
    ensures WriteOk(y', step.p, c)
  {
  }

  lemma PutStep(y: System, y': System, c: Conn, step: HR.Step)
    requires HR.Typed(y.reg) && HR.Enabled(y.reg, step) && y'.reg == HR.Apply(y.reg, step) && step.WritePut?
    requires c.sent <= |c.body| && c.server.InWrite? && WriteOk(y, step.p, c)
    ensures WriteOk(y', step.p, c)
  {
    var w := y.reg.procs[step.p];
    var at := c.server.got - |c.server.chunk|;
    assert c.body[..at] + w.p[..step.n] == c.body[..at + step.n];
  }

  lemma CloseStep(y: System, y': System, c: Conn, step: HR.Step)
    requires HR.Typed(y.reg) && HR.Enabled(y.reg, step) && y'.reg == HR.Apply(y.reg, step)
    requires step.CloseMark? || step.CloseFinish? || step.CloseRemove?
    requires HI.ProcOk(y.reg, step.p)
    requires c.sent <= |c.body| && c.server.InClose? && CloseOk(y, step.p, c)
    ensures CloseOk(y', step.p, c)
  {
  }

  predicate Internal(step: HR.Step) {
    || step.Probe? || step.Lock? || step.Commit? || step.Poison? || step.Tell?
    || step.WriteProbe? || step.WriteLock? || step.WritePut? || step.WriteSettle? || step.WriteRecheck?
    || step.CloseMark? || step.CloseFinish? || step.CloseRemove?
  }

  /** A connection inside a call takes the call's next step. */
  lemma OwnStep(y: System, y': System, step: HR.Step)
    requires HR.Typed(y.reg) && HR.Enabled(y.reg, step) && Internal(step)
    requires y'.reg == HR.Apply(y.reg, step) && y'.conns == y.conns
    requires HI.Inv(y.reg, false) && step.p in y.conns && ConnOk(y, step.p)
    ensures ConnOk(y', step.p)
  {
    var c := y.conns[step.p];
    ProcFacts(y.reg, step.p);
    StageOfStep(y, step);
    ProcsStay(y.reg, step);
    if c.server.Claiming? {
      if HR.Starting(y.reg.procs[step.p]) { HeldFacts(y.reg, y.reg.procs[step.p].h); }
      StartStep(y, y', c, step);
    } else if c.server.InWrite? {
      if step.WritePut? { PutStep(y, y', c, step); } else { WriteStep(y, y', c, step); }
    } else {
      CloseStep(y, y', c, step);
    }
  }

  lemma ProcsStay(s: HR.State, step: HR.Step)
    requires HR.Typed(s) && HR.Enabled(s, step) && Internal(step)
    ensures |HR.Apply(s, step).procs| == |s.procs|
  {
  }

  /** A call's steps occur only where handleConn waits for that call. */
  lemma StageOfStep(y: System, step: HR.Step)
    requires HR.Typed(y.reg) && HR.Enabled(y.reg, step) && Internal(step)
    requires step.p in y.conns && ConnOk(y, step.p)
    ensures var s := y.conns[step.p].server;
            || (s.Claiming? && (step.Probe? || step.Lock? || step.Commit? || step.Poison? || step.Tell?))
            || (s.InWrite? && (step.WriteProbe? || step.WriteLock? || step.WritePut? || step.WriteSettle? || step.WriteRecheck?)
                && s.h == y.reg.procs[step.p].h && WriteOk(y, step.p, y.conns[step.p]))
            || (s.InClose? && (step.CloseMark? || step.CloseFinish? || step.CloseRemove?)
                && s.h == y.reg.procs[step.p].h && CloseOk(y, step.p, y.conns[step.p]))
  {
    assert ServerOk(y, step.p, y.conns[step.p]);
  }

  lemma OwnStepOwner(y: System, y': System, step: HR.Step)
    requires HR.Typed(y.reg) && HR.Enabled(y.reg, step) && Internal(step)
    requires y'.reg == HR.Apply(y.reg, step) && y'.conns == y.conns && At(y, step.p) && At(y', step.p)
    requires y.reg.procs[step.p].Notifying? ==> !y.reg.procs[step.p].reply.GotStream?
    ensures Owner(y', step.p) == Owner(y, step.p) || Owner(y', step.p).None?
  {
  }

  // ----- every move keeps the invariant -----

  /** A move of connection `p` that contains the registry step `step`. */
  lemma CallMove(y: System, y': System, p: nat, step: HR.Step)
    requires Inv(y) && HR.Typed(y.reg) && HR.Enabled(y.reg, step) && y'.reg == HR.Apply(y.reg, step)
    requires p in y.conns && p in y'.conns && y'.conns == y.conns[p := y'.conns[p]]
    requires (Internal(step) || step.StartIngest? || step.BeginWrite? || step.BeginClose?) && step.p == p
    requires step.BeginClose? ==> Owner(y, p) == Some(step.h)
    requires step.WritePut? || step.CloseRemove? ==> Owner(y, p) == Some(y.reg.procs[p].h)
    requires ConnOk(y', p) && (Owner(y', p) == Owner(y, p) || Fresh(y, p, Owner(y', p)))
    ensures Inv(y')
  {
    HI.StepKeepsInv(y.reg, step, false);
    forall q | 0 <= q < |y.reg.procs| && q != p ensures q < |y'.reg.procs| && y'.reg.procs[q] == y.reg.procs[q] {
      OtherProcsStay(y.reg, step, q);
    }
    forall q | q in y.conns && q != p && Owner(y, q).Some? ensures Keeps(y, y', q, Owner(y, q).value) {
      OthersKept(y, y', p, q, step);
    }
    SameProcs(y.reg, step);
    OneConnMoves(y, y', p);
  }

  lemma SameProcs(s: HR.State, step: HR.Step)
    requires HR.Typed(s) && HR.Enabled(s, step) && !step.Spawn?
    ensures |HR.Apply(s, step).procs| == |s.procs|
  {
  }

  lemma ClaimMove(y: System, m: Move)
    requires Inv(y) && HR.Typed(y.reg) && m.ServerClaim? && D.Enabled(y, m)
    ensures Inv(D.Apply(y, m))
  {
    var y' := D.Apply(y, m);
    assert ConnOk(y, m.p);
    ClaimServer(y, m);
    forall q | q in y.conns && At(y, q) && Owner(y, q).Some? ensures Owner(y', m.p).Some? ==> Owner(y, q) != Owner(y', m.p) {
      assert ConnOk(y, q);
      OwnerIsClaimed(y, q);
    }
    CallMove(y, y', m.p, RegistryStep(y, m).value);
  }

  lemma ReadMove(y: System, m: Move)
    requires Inv(y) && HR.Typed(y.reg) && m.ServerRead? && D.Enabled(y, m)
    ensures Inv(D.Apply(y, m))
  {
    assert ConnOk(y, m.p);
    ReadServer(y, m);
    CallMove(y, D.Apply(y, m), m.p, RegistryStep(y, m).value);
  }

  lemma CloseMove(y: System, m: Move)
    requires Inv(y) && HR.Typed(y.reg) && m.ServerClose? && D.Enabled(y, m)
    ensures Inv(D.Apply(y, m))
  {
    assert ConnOk(y, m.p);
    CloseServer(y, m);
    CallMove(y, D.Apply(y, m), m.p, RegistryStep(y, m).value);
  }

  lemma OwnMove(y: System, step: HR.Step)
    requires Inv(y) && HR.Typed(y.reg) && HR.Enabled(y.reg, step) && Internal(step) && step.p in y.conns
    ensures Inv(y.(reg := HR.Apply(y.reg, step)))
  {
    var y', p := y.(reg := HR.Apply(y.reg, step)), step.p;
    assert ConnOk(y, p);
    OwnStep(y, y', step);
    StageOfStep(y, step);
    assert y.reg.procs[p].Notifying? ==> !y.reg.procs[p].reply.GotStream?;
    OwnStepOwner(y, y', step);
    CallMove(y, y', p, step);
  }

  lemma BystanderStays(s: HR.State, step: HR.Step, p: nat)
    requires HR.Typed(s) && HR.Enabled(s, step) && p < |s.procs| && Bystander(s.procs[p])
    requires !step.StartIngest? && !step.BeginWrite? && !step.BeginClose?
    ensures p < |HR.Apply(s, step).procs| && Bystander(HR.Apply(s, step).procs[p])
  {
  }

  /** A step that no connection takes: registrations, cancellations, expiry, and their tails. */
  lemma ForeignMove(y: System, step: HR.Step)
    requires Inv(y) && HR.Typed(y.reg) && HR.Enabled(y.reg, step) && OthersStep(y, step)
    requires step.Spawn? || step.Register? || step.CtxDone? || step.p !in y.conns
    ensures Inv(y.(reg := HR.Apply(y.reg, step)))
  {
    var y' := y.(reg := HR.Apply(y.reg, step));
    HI.StepKeepsInv(y.reg, step, false);
    forall p | p in y.conns ensures ConnOk(y', p) && Owner(y', p) == Owner(y, p) {
      assert ConnOk(y, p);
      ForeignKeepsConn(y, y', step, p);
    }
    forall p | 0 <= p < |y'.reg.procs| && p !in y.conns ensures Bystander(y'.reg.procs[p]) {
      if p < |y.reg.procs| { BystanderStays(y.reg, step, p); }
    }
  }

  lemma ForeignKeepsConn(y: System, y': System, step: HR.Step, p: nat)
    requires Inv(y) && HR.Typed(y.reg) && HR.Enabled(y.reg, step) && OthersStep(y, step)
    requires y' == y.(reg := HR.Apply(y.reg, step)) && p in y.conns && ConnOk(y, p)
    requires step.Spawn? || step.Register? || step.CtxDone? || step.p !in y.conns
    ensures ConnOk(y', p) && Owner(y', p) == Owner(y, p)
  {
    OtherProcsStay(y.reg, step, p);
    if Owner(y, p).Some? {
      OwnerIsClaimed(y, p);
      if !step.Spawn? && !step.Register? && !step.CtxDone? { assert Bystander(y.reg.procs[step.p]); }
      StepLeavesSame(y.reg, step, Owner(y, p).value);
    }
    ConnStays(y, y', p);
  }

  lemma ConnectMove(y: System, m: Move)
    requires Inv(y) && HR.Typed(y.reg) && m.Connect? && D.Enabled(y, m) && Coded(y, m)
    ensures Inv(D.Apply(y, m))
  {
    var y' := D.Apply(y, m);
    assert y'.reg == y.reg;
    ConnectOk(y, m);
    forall p | p in y.conns ensures ConnOk(y', p) && Owner(y', p) == Owner(y, p) {
      assert ConnOk(y, p);
      if Owner(y, p).Some? { OwnerIsClaimed(y, p); }
      ConnStays(y, y', p);
    }
  }

  lemma ConnectOk(y: System, m: Move)
    requires HR.Typed(y.reg) && m.Connect? && D.Enabled(y, m) && Coded(y, m)
    ensures m.p in D.Apply(y, m).conns && ConnOk(D.Apply(y, m), m.p) && Owner(D.Apply(y, m), m.p).None?
  {
  }

  /** Every move keeps the invariant. */
  lemma MoveKeepsInv(y: System, m: Move)
    requires Inv(y) && HR.Typed(y.reg) && D.Enabled(y, m) && Coded(y, m)
    requires m.ServerHeader? ==> Frames(y.conns[m.p].header, y.conns[m.p].frame, y.conns[m.p].valid)
    ensures Inv(D.Apply(y, m))
  {
    if m.Registry? {
      RegistryMove(y, m);
    } else if m.Connect? { ConnectMove(y, m);
    } else if m.ServerClaim? { ClaimMove(y, m);
    } else if m.ServerRead? { ReadMove(y, m);
    } else if m.ServerClose? { CloseMove(y, m);
    } else {
      SilentMove(y, m);
    }
  }

  lemma RegistryMove(y: System, m: Move)
    requires Inv(y) && HR.Typed(y.reg) && m.Registry? && D.Enabled(y, m)
    ensures Inv(D.Apply(y, m))
  {
    var step := m.step;
    assert D.Apply(y, m) == y.(reg := HR.Apply(y.reg, step));
    if step.Spawn? || step.Register? || step.CtxDone? || step.p !in y.conns { ForeignMove(y, step); }
    else { OwnMove(y, step); }
  }

  lemma SilentMove(y: System, m: Move)
    requires Inv(y) && HR.Typed(y.reg) && D.Enabled(y, m) && Coded(y, m) && !MovesRegistry(m) && !m.Connect?
    requires m.ServerHeader? ==> Frames(y.conns[m.p].header, y.conns[m.p].frame, y.conns[m.p].valid)
    ensures Inv(D.Apply(y, m))
  {
    assert At(y, m.p) && ConnOk(y, m.p);
    if ClientMove(m) { ClientKeeps(y, m); ClientMoves(y, m); }
    else if ServerMove(m) { ServerOwner(y, m); ServerMoves(y, m); }
    else {
      HeaderReadIsHeaderSent(y.conns[m.p], m.read, y.maxHeaderBytes);
      HeaderMoves(y, m);
    }
    LocalMove(y, D.Apply(y, m), m.p);
  }
}
