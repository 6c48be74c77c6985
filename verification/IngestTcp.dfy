/** The copy loops of the TCP ingest transport as they run (internal/ingesttcp/client.go and server.go): a decreasing
    limit, reads of any size, and the order header, body, end of writing, acknowledgement. */
module IngestTcp {
  import opened Octets
  import opened MessagePack
  import opened Frames
  import FC = FrameCodec

  datatype CopyFault = UnexpectedEof | WriteFailed | HeaderFailed(why: FC.EncodeFault) | NoAck | BadAck(code: Octet) | ContextDone
    | DeadlineRefused | CloseFailed

  /** How much of the `available` octets a copy is about. */
  function Wanted(available: nat, bodyLength: int): nat {
    if bodyLength < 0 || available < bodyLength then available else bodyLength
  }

  /** io.CopyBuffer from an io.LimitedReader, or without a limit when the length is unknown: nothing beyond the limit
      is read, whatever is read is written before the next read, and success means exactly the declared number. */
  method CopyBody(dst: FC.Writer, src: FC.Source, bodyLength: int, bufferSize: nat) returns (e: Option<CopyFault>)
    requires src.Valid() && |dst.out| <= dst.room && bodyLength >= UNKNOWN_BODY_LENGTH && bufferSize > 0
    modifies dst, src
    ensures src.Valid() && |dst.out| <= dst.room
    ensures var body := old(src.Rest());
            var want := Wanted(|body|, bodyLength);
            && (exists k: nat :: k <= want && src.Rest() == body[k..])
            && dst.out == old(dst.out) + body[..if |old(dst.out)| + want <= dst.room then want else dst.room - |old(dst.out)|]
            && (e.None? ==> src.Rest() == body[want..])
            && e == (if |old(dst.out)| + want > dst.room then Some(WriteFailed)
                     else if |body| < bodyLength then Some(UnexpectedEof) else None)
    ensures e.None? && bodyLength < 0 ==> dst.out == old(dst.out) + old(src.Rest()) && src.Rest() == []
    ensures e.None? && bodyLength >= 0 ==>
              var body := old(src.Rest());
              bodyLength <= |body| && dst.out == old(dst.out) + body[..bodyLength] && src.Rest() == body[bodyLength..]
  {
    ghost var body, start := src.Rest(), dst.out;
    ghost var k := 0;
    ghost var want := Wanted(|body|, bodyLength);
    var limit := bodyLength;
    var more := true;
    while more && limit != 0
      invariant src.Valid() && k <= want && src.Rest() == body[k..]
      invariant dst.out == start + body[..k] && |dst.out| <= dst.room
      invariant limit == if bodyLength < 0 then -1 else bodyLength - k
      invariant !more ==> k == |body|
      decreases |body| - k, more
    {
      var q := src.Read(if limit < 0 || bufferSize < limit then bufferSize else limit);
      more := q != [];
      Advance(body, k, q, src.Rest());
      var ok := dst.Write(q);
      if !ok {
        Partial(start, body, k, q, dst.room);
        assert src.Rest() == body[k + |q|..];
        return Some(WriteFailed);
      }
      Glue(start, body[..k], q);
      k := k + |q|;
      limit := if limit < 0 then limit else limit - |q|;
    }
    e := if limit > 0 then Some(UnexpectedEof) else None;
    assert body[..|body|] == body;
  }

  lemma Advance(body: Text, k: nat, q: Text, rest: Text)
    requires k <= |body| && body[k..] == q + rest
    ensures k + |q| <= |body| && rest == body[k + |q|..] && body[..k] + q == body[..k + |q|] && q == body[k..k + |q|]
  {
    assert body == body[..k] + body[k..];
    assert body[k..][..|q|] == q && body[k..][|q|..] == rest;
  }

  /** A writer that fills up in the middle of a chunk has a prefix of the body. */
  lemma Partial(start: Text, body: Text, k: nat, q: Text, room: nat)
    requires k + |q| <= |body| && q == body[k..k + |q|] && |start| + k <= room < |start| + k + |q|
    ensures start + body[..k] + q[..room - |start| - k] == start + body[..room - |start|]
  {
    var n := room - |start| - k;
    assert body[..k] + q[..n] == body[..k + n];
    Glue(start, body[..k], q[..n]);
  }

  /** readAck: one octet back, unless the context ended first. */
  method ReadAck(replies: FC.Source, ended: bool) returns (e: Option<CopyFault>)
    requires replies.Valid()
    modifies replies
    ensures e.None? <==> !ended && old(replies.Rest()) != [] && old(replies.Rest())[0] == '\0'
  {
    var ack, ok := replies.ReadFull(1);
    if ended { return Some(ContextDone); }
    if !ok { return Some(NoAck); }
    assert ack[0] == old(replies.Rest())[0];
    if ack[0] != '\0' { return Some(BadAck(ack[0])); }
    e := None;
  }

  /** What setDeadlineFromContext meets: a context without a deadline, a connection that takes it, or one that refuses. */
  datatype Deadline = NoDeadline | Set | Refused

  /** What copyClientBody finds when it has to end the writing side. */
  datatype WriteSide = NoCloseWrite | CloseFails | Closes

  /** The octets that a complete Send writes. */
  function Whole(h: Header, body: Text): Text
    requires IsInt64(h.bodyLength) && IsInt64(h.metadata.statusCode) && Encode(h).Ok?
  {
    Encode(h).value + body[..Wanted(|body|, h.bodyLength)]
  }

  /** What is wanted: everything when the length is unknown, and otherwise exactly the declared number. */
  lemma WantedIs(body: Text, bodyLength: int)
    requires UNKNOWN_BODY_LENGTH <= bodyLength <= |body|
    ensures body[..Wanted(|body|, bodyLength)] == if bodyLength == UNKNOWN_BODY_LENGTH then body else body[..bodyLength]
  {
    assert body[..|body|] == body;
  }

  /** The first byte back is the success octet. */
  predicate Acknowledged(replies: Text) {
    replies != [] && replies[0] == '\0'
  }

  /** Send; a deadline that passes is a writer that is full or a reply that does not come.  The header is validated here
      and again by EncodeHeader, which changes nothing.  What goes out is always a beginning of the frame and the
      declared body, and nil comes exactly when all of it went out, the writing side of a body of unknown length was
      closed, and the acknowledgement came before the context ended. */
  method Send(conn: FC.Writer, body: FC.Source, replies: FC.Source, h: Header, bufferSize: nat, ended: bool,
              deadline: Deadline, side: WriteSide)
    returns (e: Option<CopyFault>, closedWrite: bool)
    requires body.Valid() && replies.Valid() && body != replies && |conn.out| <= conn.room && bufferSize > 0
    requires IsInt64(h.bodyLength) && IsInt64(h.metadata.statusCode)
    modifies conn, body, replies
    ensures deadline.Refused? || Encode(h).Err? ==> e.Some? && conn.out == old(conn.out)
    ensures Encode(h).Ok? ==> conn.out <= old(conn.out) + Whole(h, old(body.Rest()))
    ensures e.None? ==> Encode(h).Ok? && conn.out == old(conn.out) + Whole(h, old(body.Rest()))
    ensures e.None? && h.bodyLength == UNKNOWN_BODY_LENGTH ==> conn.out == old(conn.out) + (Encode(h).value + old(body.Rest()))
    ensures e.None? && h.bodyLength != UNKNOWN_BODY_LENGTH ==>
              && 0 <= h.bodyLength <= |old(body.Rest())|
              && conn.out == old(conn.out) + (Encode(h).value + old(body.Rest())[..h.bodyLength])
    ensures e.None? <==>
              && !deadline.Refused? && Encode(h).Ok? && h.bodyLength <= |old(body.Rest())|
              && |old(conn.out)| + |Whole(h, old(body.Rest()))| <= conn.room
              && (h.bodyLength == UNKNOWN_BODY_LENGTH ==> side.Closes?)
              && !ended && Acknowledged(old(replies.Rest()))
    ensures closedWrite ==> h.bodyLength == UNKNOWN_BODY_LENGTH && side.Closes?
    ensures e.None? && h.bodyLength == UNKNOWN_BODY_LENGTH ==> closedWrite
  {
    closedWrite := false;
    if deadline.Refused? { return Some(DeadlineRefused), false; }
    var v := ValidateHeader(h);
    if v.Err? {
      return Some(HeaderFailed(FC.Unacceptable(v.error))), false;
    }
    EncodeNormalised(h);
    e, closedWrite := SendValidated(conn, body, v.value, bufferSize, side);
    if e.Some? { return; }
    WantedIs(old(body.Rest()), h.bodyLength);
    e := ReadAck(replies, ended);
  }

  /** Header and body, up to the acknowledgement. */
  method SendValidated(conn: FC.Writer, body: FC.Source, h: Header, bufferSize: nat, side: WriteSide)
    returns (e: Option<CopyFault>, closedWrite: bool)
    requires body.Valid() && |conn.out| <= conn.room && bufferSize > 0 && h.bodyLength >= UNKNOWN_BODY_LENGTH
    requires IsInt64(h.bodyLength) && IsInt64(h.metadata.statusCode)
    modifies conn, body
    ensures Encode(h).Err? ==> e.Some? && conn.out == old(conn.out)
    ensures Encode(h).Ok? ==> conn.out <= old(conn.out) + Whole(h, old(body.Rest()))
    ensures e.None? ==> Encode(h).Ok? && conn.out == old(conn.out) + Whole(h, old(body.Rest()))
    ensures e.None? <==>
              && Encode(h).Ok? && h.bodyLength <= |old(body.Rest())|
              && |old(conn.out)| + |Whole(h, old(body.Rest()))| <= conn.room
              && (h.bodyLength == UNKNOWN_BODY_LENGTH ==> side.Closes?)
    ensures closedWrite == (e.None? && h.bodyLength == UNKNOWN_BODY_LENGTH)
  {
    var f := FC.EncodeHeader(conn, h);
    if f.Some? {
      if Encode(h).Ok? {
        PartOfFrame(old(conn.out), Encode(h).value, conn.room - |old(conn.out)|, body.Rest()[..Wanted(|body.Rest()|, h.bodyLength)]);
      }
      return Some(HeaderFailed(f.value)), false;
    }
    e, closedWrite := CopyClientBody(conn, body, h.bodyLength, bufferSize, side, old(conn.out), Encode(h).value);
  }

  /** copyClientBody, behind the frame. */
  method CopyClientBody(conn: FC.Writer, body: FC.Source, bodyLength: int, bufferSize: nat, side: WriteSide, ghost start: Text, ghost frame: Text)
    returns (e: Option<CopyFault>, closedWrite: bool)
    requires body.Valid() && |conn.out| <= conn.room && bufferSize > 0 && bodyLength >= UNKNOWN_BODY_LENGTH
    requires conn.out == start + frame
    modifies conn, body
    ensures var data := old(body.Rest());
            var whole := frame + data[..Wanted(|data|, bodyLength)];
            && conn.out <= start + whole && (e.None? ==> conn.out == start + whole)
            && (e.None? <==> bodyLength <= |data| && |start| + |whole| <= conn.room && (bodyLength == UNKNOWN_BODY_LENGTH ==> side.Closes?))
            && (e.None? ==> conn.out == start + (frame + if bodyLength == UNKNOWN_BODY_LENGTH then data else data[..bodyLength]))
    ensures closedWrite == (e.None? && bodyLength == UNKNOWN_BODY_LENGTH)
  {
    ghost var data, want := body.Rest(), Wanted(|body.Rest()|, bodyLength);
    closedWrite := false;
    e := CopyBody(conn, body, bodyLength, bufferSize);
    PartOfBody(start, frame, data, if |start + frame| + want <= conn.room then want else conn.room - |start + frame|, want);
    if e.Some? { return; }
    if bodyLength == UNKNOWN_BODY_LENGTH {
      if !side.Closes? { return Some(CloseFailed), false; }
      closedWrite := true;
    }
    WantedIs(data, bodyLength);
  }

  lemma PartOfFrame(start: Text, frame: Text, n: nat, rest: Text)
    requires n <= |frame|
    ensures start + frame[..n] <= start + (frame + rest)
  {
  }

  lemma PartOfBody(start: Text, frame: Text, data: Text, n: nat, want: nat)
    requires n <= want <= |data|
    ensures start + frame + data[..n] <= start + (frame + data[..want])
    ensures n == want ==> start + frame + data[..n] == start + (frame + data[..want])
  {
    Glue(start, frame, data[..want]);
    assert data[..want][..n] == data[..n];
  }

  /** Encoding a validated header is encoding the header. */
  lemma EncodeNormalised(h: Header)
    requires ValidateHeader(h).Ok? && IsInt64(h.bodyLength) && IsInt64(h.metadata.statusCode)
    ensures var h' := ValidateHeader(h).value;
            h'.bodyLength == h.bodyLength && h'.metadata.statusCode == h.metadata.statusCode && Encode(h') == Encode(h)
  {
    ValidateHeaderIdempotent(h);
  }
}
