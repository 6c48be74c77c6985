/** End to end: a client's Send (internal/ingesttcp/client.go), a FIFO octet channel, the server's
    handleConn (internal/ingesttcp/server.go) and the held-request protocol, in any interleaving. */
module Delivery {
  import opened Octets
  import HR = HeldRequests
  import opened HeldRequests
  import F = Frames
  import opened MessagePack

  datatype ClientAt = NotStarted | Sending | AwaitAck | Returned(err: Option<Failure>)

  /** Where handleConn is.  `got` counts the body octets read from the channel so far. */
  datatype ServerAt =
    | Accepted
    | HaveHeader(hd: F.Header) | Claiming(hd: F.Header)
    | Copying(hd: F.Header, h: nat, got: nat)
    | InWrite(hd: F.Header, h: nat, got: nat, chunk: Text)
    | ToClose(hd: F.Header, h: nat, got: nat, e: Option<Failure>)
    | InClose(hd: F.Header, h: nat, got: nat, e: Option<Failure>)
    | Acking(hd: F.Header, h: nat, got: nat)
    | Acked(hd: F.Header, h: nat, got: nat)
    | AckLost(hd: F.Header, h: nat, got: nat)
    | Ended

  /** One connection.  `frame` is what EncodeHeader writes for the requested header and `valid` the header
      it stands for; `wire` holds the octets sent and not yet read; `eof` is the end of the client's stream, by its
      CloseWrite or because the connection of a client that has returned is closed: both send the same close_notify;
      `acks` are the octets sent back. */
  datatype Conn = Conn(
      header: F.Header, frame: Result<Text, Fault>, valid: F.Header,
      body: Text, sent: nat, wire: Text, eof: bool,
      client: ClientAt, server: ServerAt, acks: Text)

  /** Each connection is served by the goroutine it is filed under. */
  datatype System = System(reg: HR.State, conns: map<nat, Conn>, maxHeaderBytes: int)

  function Start(maxHeaderBytes: int): System {
    System(HR.Init, map[], maxHeaderBytes)
  }

  datatype Move =
    | Registry(step: HR.Step)
    | Connect(p: nat, header: F.Header, frame: Result<Text, Fault>, valid: F.Header, body: Text)
    | ClientHeader(p: nat) | ClientSend(p: nat, n: nat) | ClientBodyEnd(p: nat) | ClientAck(p: nat)
    | ClientFail(p: nat, e: Failure) | ClientClose(p: nat)
    | ServerHeader(p: nat, read: Result<(F.Header, Text), F.FrameFault>) | ServerClaim(p: nat, now: int) | ServerClaimed(p: nat)
    | ServerRead(p: nat, n: nat) | ServerWrote(p: nat) | ServerBodyEnd(p: nat)
    | ServerReadFail(p: nat, e: Failure)
    | ServerClose(p: nat) | ServerClosed(p: nat) | ServerAck(p: nat) | ServerAckFail(p: nat)

  /** Streams belong to the connection that claimed them; everybody may register, cancel and expire. */
  ghost predicate OthersStep(y: System, step: HR.Step) {
    && !step.StartIngest? && !step.BeginWrite? && !step.BeginClose?
    && ((step.Cancel? || step.Expire?) ==> step.p !in y.conns)
  }

  predicate At(y: System, p: nat) {
    p in y.conns && p < |y.reg.procs|
  }

  function Length(c: Conn): int {
    c.header.bodyLength
  }

  /** The step of the registry protocol that a move contains, if any. */
  function RegistryStep(y: System, m: Move): Option<HR.Step> {
    match m
    case Registry(step) => Some(step)
    case ServerClaim(p, now) =>
      if At(y, p) && y.conns[p].server.HaveHeader? then
        Some(HR.StartIngest(p, y.conns[p].server.hd.requestId, y.conns[p].server.hd.ingestToken, now))
      else None
    case ServerRead(p, n) =>
      if At(y, p) && y.conns[p].server.Copying? && n <= |y.conns[p].wire| then
        Some(HR.BeginWrite(p, y.conns[p].server.h, y.conns[p].wire[..n]))
      else None
    case ServerClose(p) =>
      if At(y, p) && y.conns[p].server.ToClose? then
        Some(HR.BeginClose(p, y.conns[p].server.h, y.conns[p].server.e))
      else None
    case _ => None
  }

  predicate MovesRegistry(m: Move) {
    m.Registry? || m.ServerClaim? || m.ServerRead? || m.ServerClose?
  }

  ghost predicate Enabled(y: System, m: Move)
    requires HR.Typed(y.reg)
  {
    && (MovesRegistry(m) ==> RegistryStep(y, m).Some? && HR.Enabled(y.reg, RegistryStep(y, m).value))
    && match m
       case Registry(step) => OthersStep(y, step)
       case Connect(p, _, _, _, _) => p < |y.reg.procs| && y.reg.procs[p] == HR.Ready(HR.Nothing) && p !in y.conns
       case ClientHeader(p) => At(y, p) && y.conns[p].client.NotStarted?
       case ClientSend(p, n) =>
         (At(y, p) && y.conns[p].client.Sending? && y.conns[p].sent + n <= |y.conns[p].body|
          && (Length(y.conns[p]) >= 0 ==> y.conns[p].sent + n <= Length(y.conns[p])))
       case ClientBodyEnd(p) =>
         (At(y, p) && y.conns[p].client.Sending?
          && (y.conns[p].sent == |y.conns[p].body| || y.conns[p].sent == Length(y.conns[p])))
       case ClientAck(p) => At(y, p) && y.conns[p].client.AwaitAck? && y.conns[p].acks != []
       case ClientFail(p, _) => At(y, p) && !y.conns[p].client.Returned?
       case ClientClose(p) => At(y, p) && y.conns[p].client.Returned?
       case ServerHeader(p, read) =>
         At(y, p) && y.conns[p].server.Accepted? && (read != Err(F.Incomplete) || y.conns[p].eof)
       case ServerClaim(p, _) => true
       case ServerClaimed(p) => At(y, p) && y.conns[p].server.Claiming? && y.reg.procs[p].Ready?
       case ServerRead(p, n) =>
         n > 0 && (y.conns[p].server.hd.bodyLength >= 0 ==> y.conns[p].server.got + n <= y.conns[p].server.hd.bodyLength)
       case ServerWrote(p) =>
         At(y, p) && y.conns[p].server.InWrite? && y.reg.procs[p].Ready? && y.reg.procs[p].answer.Wrote?
       case ServerBodyEnd(p) =>
         (At(y, p) && y.conns[p].server.Copying?
          && if y.conns[p].server.hd.bodyLength >= 0 then y.conns[p].server.got == y.conns[p].server.hd.bodyLength
             else y.conns[p].wire == [] && y.conns[p].eof)
       case ServerReadFail(p, _) => At(y, p) && y.conns[p].server.Copying?
       case ServerClose(p) => true
       case ServerClosed(p) =>
         At(y, p) && y.conns[p].server.InClose? && y.reg.procs[p].Ready? && y.reg.procs[p].answer.Closed?
       case ServerAck(p) => At(y, p) && y.conns[p].server.Acking?
       case ServerAckFail(p) => At(y, p) && y.conns[p].server.Acking?
  }

  /** The labels that come from the frame codec are what the codec says. */
  ghost predicate Coded(y: System, m: Move) {
    match m
    case Connect(_, header, frame, valid, _) => Frames(header, frame, valid)
    case ServerHeader(p, read) => At(y, p) ==> read == F.Decode(y.conns[p].wire, y.maxHeaderBytes)
    case _ => true
  }

  ghost predicate Frames(header: F.Header, frame: Result<Text, Fault>, valid: F.Header) {
    && IsInt64(header.bodyLength) && IsInt64(header.metadata.statusCode) && frame == F.Encode(header)
    && (F.ValidateHeader(header).Ok? ==> valid == F.ValidateHeader(header).value)
  }

  /** What the move does to its own connection. */
  function MoveConn(y: System, m: Move, p: nat): Conn
    requires At(y, p)
  {
    var c := y.conns[p];
    var s := c.server;
    var call := y.reg.procs[p];
    match m
    case ClientHeader(_) =>
      (match c.frame
       case Err(_) => c.(client := Returned(Some(Other(0))))
       case Ok(frame) => c.(client := Sending, wire := c.wire + frame))
    case ClientSend(_, n) =>
      if c.sent + n <= |c.body| then c.(wire := c.wire + c.body[c.sent..c.sent + n], sent := c.sent + n) else c
    case ClientBodyEnd(_) =>
      if Length(c) == F.UNKNOWN_BODY_LENGTH then c.(eof := true, client := AwaitAck)
      else if c.sent == Length(c) then c.(client := AwaitAck)
      else c.(client := Returned(Some(UnexpectedEOF)))
    case ClientAck(_) =>
      if c.acks != [] && c.acks[0] == '\0' then c.(client := Returned(None)) else c.(client := Returned(Some(Other(1))))
    case ClientFail(_, e) => c.(client := Returned(Some(e)))
    case ClientClose(_) => c.(eof := true)
    case ServerHeader(_, read) =>
      (match read
       case Err(_) => c.(server := Ended)
       case Ok((hd, rest)) => c.(wire := rest, server := HaveHeader(hd)))
    case ServerClaim(_, _) => if s.HaveHeader? then c.(server := Claiming(s.hd)) else c
    case ServerClaimed(_) =>
      if s.Claiming? && call.Ready? && call.answer.GotStream? then c.(server := Copying(s.hd, call.answer.h, 0))
      else c.(server := Ended)
    case ServerRead(_, n) =>
      if s.Copying? && n <= |c.wire| then
        c.(wire := c.wire[n..], server := InWrite(s.hd, s.h, s.got + n, c.wire[..n]))
      else c
    case ServerWrote(_) =>
      if !s.InWrite? || !call.Ready? || !call.answer.Wrote? then c
      else if call.answer.werr.Some? then c.(server := ToClose(s.hd, s.h, s.got, call.answer.werr))
      else if call.answer.n != |s.chunk| then c.(server := ToClose(s.hd, s.h, s.got, Some(ShortWrite)))
      else c.(server := Copying(s.hd, s.h, s.got))
    case ServerBodyEnd(_) => if s.Copying? then c.(server := ToClose(s.hd, s.h, s.got, None)) else c
    case ServerReadFail(_, e) => if s.Copying? then c.(server := ToClose(s.hd, s.h, s.got, Some(e))) else c
    case ServerClose(_) => if s.ToClose? then c.(server := InClose(s.hd, s.h, s.got, s.e)) else c
    case ServerClosed(_) =>
      if s.InClose? && s.e.None? && call.Ready? && call.answer.Closed? && call.answer.cerr.None? then
        c.(server := Acking(s.hd, s.h, s.got))
      else c.(server := Ended)
    case ServerAck(_) => if s.Acking? then c.(acks := c.acks + ['\0'], server := Acked(s.hd, s.h, s.got)) else c
    case ServerAckFail(_) => if s.Acking? then c.(server := AckLost(s.hd, s.h, s.got)) else c
    case _ => c
  }

  ghost function MoveRegistry(y: System, m: Move): HR.State
    requires HR.Typed(y.reg) && Enabled(y, m)
  {
    if MovesRegistry(m) then HR.Apply(y.reg, RegistryStep(y, m).value) else y.reg
  }

  ghost function MoveConns(y: System, m: Move): map<nat, Conn>
    requires HR.Typed(y.reg) && Enabled(y, m)
  {
    if m.Registry? then y.conns
    else if m.Connect? then y.conns[m.p := Conn(m.header, m.frame, m.valid, m.body, 0, [], false, NotStarted, Accepted, [])]
    else y.conns[m.p := MoveConn(y, m, m.p)]
  }

  ghost function Apply(y: System, m: Move): System
    requires HR.Typed(y.reg) && Enabled(y, m)
  {
    System(MoveRegistry(y, m), MoveConns(y, m), y.maxHeaderBytes)
  }
}
