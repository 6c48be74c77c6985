/** The encoder and decoder of internal/ingeststream/frame.go as they run: a growing buffer, a reading
    position, and the loops that fill in the header.  Each is proved against the functions of Frames.dfy. */
module FrameCodec {
  import opened Octets
  import opened MessagePack
  import opened Frames

  // ----- encoding -----

  /** msgpack.Encoder over a bytes.Buffer. */
  class Encoder {
    var out: Text

    constructor ()
      ensures out == []
    {
      out := [];
    }

    method MapLen(n: nat)
      requires n < 0x1_0000_0000
      modifies this
      ensures out == old(out) + EncodeMapLen(n)
    {
      out := out + EncodeMapLen(n);
    }

    method Str(s: Text)
      requires |s| < 0x1_0000_0000
      modifies this
      ensures out == old(out) + EncodeStr(s)
    {
      out := out + EncodeStr(s);
    }

    method Int(n: int)
      requires IsInt64(n)
      modifies this
      ensures out == old(out) + EncodeInt(n)
    {
      out := out + EncodeInt(n);
    }

    method StringField(key: Text, value: Text)
      requires |key| < 0x1_0000_0000 && |value| < 0x1_0000_0000
      modifies this
      ensures out == old(out) + StrField(key, value)
    {
      Str(key);
      Str(value);
    }

    method IntegerField(key: Text, value: int)
      requires |key| < 0x1_0000_0000 && IsInt64(value)
      modifies this
      ensures out == old(out) + IntField(key, value)
    {
      Str(key);
      Int(value);
      Glue(old(out), EncodeStr(key), EncodeInt(value));
    }

    /** encodeMetadata. */
    method Metadata(m: Metadata)
      requires Encodable(Header("", "", 0, m))
      modifies this
      ensures out == old(out) + (EncodeMapLen(7) + Concat(MetadataFields(m)))
    {
      MapLen(7);
      ghost var before := out;
      IntegerField("status_code", m.statusCode);
      FirstPart(before, MetadataFields(m));
      MetadataText(m, before);
      Regroup(old(out), EncodeMapLen(7), Concat(MetadataFields(m)), []);
    }

    /** Its six text fields. */
    method MetadataText(m: Metadata, ghost before: Text)
      requires Encodable(Header("", "", 0, m)) && out == before + Concat(MetadataFields(m)[..1])
      modifies this
      ensures out == before + Concat(MetadataFields(m))
    {
      ghost var fs := MetadataFields(m);
      Part("content_type", m.contentType, before, fs, 1);
      Part("content_length", m.contentLength, before, fs, 2);
      MetadataRange(m, before);
    }

    method MetadataRange(m: Metadata, ghost before: Text)
      requires Encodable(Header("", "", 0, m)) && out == before + Concat(MetadataFields(m)[..3])
      modifies this
      ensures out == before + Concat(MetadataFields(m))
    {
      ghost var fs := MetadataFields(m);
      Part("content_range", m.contentRange, before, fs, 3);
      Part("etag", m.etag, before, fs, 4);
      MetadataTail(m, before);
    }

    method MetadataTail(m: Metadata, ghost before: Text)
      requires Encodable(Header("", "", 0, m)) && out == before + Concat(MetadataFields(m)[..5])
      modifies this
      ensures out == before + Concat(MetadataFields(m))
    {
      ghost var fs := MetadataFields(m);
      Part("last_modified", m.lastModified, before, fs, 5);
      Part("accept_ranges", m.acceptRanges, before, fs, 6);
      assert fs[..7] == fs;
    }

    /** A text field, as part `k` of `fs`. */
    method Part(key: Text, value: Text, ghost before: Text, ghost fs: seq<Text>, ghost k: nat)
      requires |key| < 0x1_0000_0000 && |value| < 0x1_0000_0000
      requires k < |fs| && fs[k] == StrField(key, value) && out == before + Concat(fs[..k])
      modifies this
      ensures out == before + Concat(fs[..k + 1])
    {
      StringField(key, value);
      AppendNext(before, fs, k);
    }

    /** encodeHeaderPayload. */
    method HeaderPayload(h: Header)
      requires Encodable(h)
      modifies this
      ensures out == old(out) + Payload(h)
    {
      ghost var fs := HeaderFields(h);
      MapLen(4);
      ghost var before := out;
      assert fs[..0] == [];
      Part("request_id", h.requestId, before, fs, 0);
      Part("ingest_token", h.ingestToken, before, fs, 1);
      IntegerField("body_length", h.bodyLength);
      AppendNext(before, fs, 2);
      MetadataPart(h, before);
      Regroup(old(out), EncodeMapLen(4), Concat(fs), []);
    }

    method MetadataPart(h: Header, ghost before: Text)
      requires Encodable(h) && out == before + Concat(HeaderFields(h)[..3])
      modifies this
      ensures out == before + Concat(HeaderFields(h))
    {
      ghost var fs, from := HeaderFields(h), out;
      Str("metadata");
      Metadata(h.metadata);
      Regroup(from, EncodeStr("metadata"), EncodeMapLen(7), Concat(MetadataFields(h.metadata)));
      AppendNext(before, fs, 3);
      assert fs[..4] == fs;
    }
  }

  lemma Regroup(a: Text, b: Text, c: Text, d: Text)
    ensures a + b + (c + d) == a + (b + c + d) && c + [] == c
  {
  }

  /** One part more. */
  lemma {:induction false} ConcatNext(fs: seq<Text>, k: nat)
    requires k < |fs|
    ensures Concat(fs[..k + 1]) == Concat(fs[..k]) + fs[k]
    decreases k
  {
    if k == 0 {
      assert fs[..1] == [fs[0]] && fs[..0] == [];
    } else {
      ConcatNext(fs[1..], k - 1);
      assert fs[1..][..k] == fs[..k + 1][1..] && fs[1..][..k - 1] == fs[..k][1..];
    }
  }

  lemma FirstPart(before: Text, fs: seq<Text>)
    requires fs != []
    ensures before + fs[0] == before + Concat(fs[..1])
  {
    assert fs[..1] == [fs[0]] && fs[0] + [] == fs[0];
  }

  lemma AppendNext(before: Text, fs: seq<Text>, k: nat)
    requires k < |fs|
    ensures before + Concat(fs[..k]) + fs[k] == before + Concat(fs[..k + 1])
  {
    ConcatNext(fs, k);
  }

  /** The io.Writer of EncodeHeader: it takes `room` octets in all and then fails. */
  class Writer {
    const room: nat
    var out: Text

    constructor (room: nat)
      ensures this.room == room && out == []
    {
      this.room, out := room, [];
    }

    method Write(p: Text) returns (ok: bool)
      requires |out| <= room
      modifies this
      ensures |out| <= room && ok == (|old(out)| + |p| <= room)
      ensures if ok then out == old(out) + p else out == old(out) + p[..room - |old(out)|]
    {
      ok := |out| + |p| <= room;
      out := if ok then out + p else out + p[..room - |out|];
    }
  }

  datatype EncodeFault = Unacceptable(why: Fault) | WriteFailed

  /** A writer with `room` for so many octets took `p`, or failed when it was full. */
  predicate Received(before: Text, room: nat, p: Text, after: Text, e: Option<EncodeFault>) {
    if |before| + |p| <= room then e.None? && after == before + p
    else e == Some(WriteFailed) && |before| <= room && after == before + p[..room - |before|]
  }

  /** A frame goes out in two writes; when the writer fails it has received a beginning of the frame. */
  method WriteFrame(w: Writer, prefix: Text, payload: Text) returns (e: Option<EncodeFault>)
    requires |w.out| <= w.room
    modifies w
    ensures Received(old(w.out), w.room, prefix + payload, w.out, e)
  {
    var ok := w.Write(prefix);
    if !ok { return Some(WriteFailed); }
    ok := w.Write(payload);
    e := if ok then None else Some(WriteFailed);
  }

  /** EncodeHeader: nothing is written for a header that is refused. */
  method EncodeHeader(w: Writer, h: Header) returns (e: Option<EncodeFault>)
    requires IsInt64(h.bodyLength) && IsInt64(h.metadata.statusCode) && |w.out| <= w.room
    modifies w
    ensures match Encode(h)
            case Err(f) => e == Some(Unacceptable(f)) && w.out == old(w.out)
            case Ok(frame) => Received(old(w.out), w.room, frame, w.out, e)
  {
    var payload := PayloadToWrite(h);
    if payload.Err? { return Some(Unacceptable(payload.error)); }
    e := WriteFramed(w, payload.value);
  }

  /** Validated, encoded into a buffer, and not too long. */
  method PayloadToWrite(h: Header) returns (r: Result<Text, Fault>)
    requires IsInt64(h.bodyLength) && IsInt64(h.metadata.statusCode)
    ensures r.Err? ==> Encode(h) == Err(r.error)
    ensures r.Ok? ==> |r.value| < 0x1_0000_0000 && Encode(h) == Ok(Framed(r.value))
  {
    var v := ValidateHeader(h);
    if v.Err? { return Err(v.error); }
    if !Encodable(v.value) { return Err(OutOfRange); }
    var payload := EncodePayload(v.value);
    r := if |payload| > DEFAULT_MAX_HEADER_BYTES then Err(OutOfRange) else Ok(payload);
  }

  method WriteFramed(w: Writer, payload: Text) returns (e: Option<EncodeFault>)
    requires |w.out| <= w.room && |payload| < 0x1_0000_0000
    modifies w
    ensures Received(old(w.out), w.room, Framed(payload), w.out, e)
  {
    Powers();
    e := WriteFrame(w, MAGIC + [Byte(VERSION)] + BigEndian(|payload|, 4), payload);
  }

  method EncodePayload(h: Header) returns (payload: Text)
    requires Encodable(h)
    ensures payload == Payload(h)
  {
    var enc := new Encoder();
    enc.HeaderPayload(h);
    payload := enc.out;
  }

  // ----- decoding -----

  /** Puts one decoded field into the header, as the switch of decodeHeaderMap does. */
  function PutHeader(h: Header, key: Text, v: Value): Header {
    if key == "request_id" && v.StrValue? then h.(requestId := v.s)
    else if key == "ingest_token" && v.StrValue? then h.(ingestToken := v.s)
    else if key == "body_length" && v.IntValue? then h.(bodyLength := v.n)
    else if key == "metadata" && v.MapValue? then h.(metadata := v.m)
    else h
  }

  function PutMetadata(m: Metadata, key: Text, v: Value): Metadata {
    if key == "status_code" && v.IntValue? then m.(statusCode := v.n)
    else if key == "content_type" && v.StrValue? then m.(contentType := v.s)
    else if key == "content_length" && v.StrValue? then m.(contentLength := v.s)
    else if key == "content_range" && v.StrValue? then m.(contentRange := v.s)
    else if key == "etag" && v.StrValue? then m.(etag := v.s)
    else if key == "last_modified" && v.StrValue? then m.(lastModified := v.s)
    else if key == "accept_ranges" && v.StrValue? then m.(acceptRanges := v.s)
    else m
  }

  predicate OfKind(kind: Kind, v: Value) {
    match kind
    case StrKind => v.StrValue?
    case IntKind => v.IntValue?
    case MapKind => v.MapValue?
  }

  /** Assigning the fields one after the other builds the record of all of them. */
  lemma PutHeaderIs(f: Fields, key: Text, v: Value)
    requires key in HEADER_SCHEMA && OfKind(HEADER_SCHEMA[key], v)
    ensures HeaderOf(f[key := v]) == PutHeader(HeaderOf(f), key, v)
  {
  }

  lemma PutMetadataIs(f: Fields, key: Text, v: Value)
    requires key in METADATA_SCHEMA && OfKind(METADATA_SCHEMA[key], v)
    ensures MetadataOf(f[key := v]) == PutMetadata(MetadataOf(f), key, v)
  {
    if key == "status_code" {
      assert v.IntValue?;
    } else {
      assert v.StrValue?;
      PutTextIs(f, key, v);
    }
  }

  /** The record in which every text field of that name has become `s`. */
  function ByName(m: Metadata, key: Text, s: Text): Metadata {
    Metadata(m.statusCode,
             if key == "content_type" then s else m.contentType,
             if key == "content_length" then s else m.contentLength,
             if key == "content_range" then s else m.contentRange,
             if key == "etag" then s else m.etag,
             if key == "last_modified" then s else m.lastModified,
             if key == "accept_ranges" then s else m.acceptRanges)
  }

  /** The text fields one by one. */
  lemma PutTextIs(f: Fields, key: Text, v: Value)
    requires key != "status_code" && v.StrValue?
    ensures MetadataOf(f[key := v]) == PutMetadata(MetadataOf(f), key, v)
  {
    var g := f[key := v];
    TextPut(f, key, v, "content_type");
    TextPut(f, key, v, "content_length");
    TextPut(f, key, v, "content_range");
    TextPut(f, key, v, "etag");
    TextPut(f, key, v, "last_modified");
    TextPut(f, key, v, "accept_ranges");
    assert IntOf(g, "status_code") == IntOf(f, "status_code");
    assert MetadataOf(g) == ByName(MetadataOf(f), key, v.s);
    OneNameOnly(MetadataOf(f), key, v);
  }

  lemma OneNameOnly(m: Metadata, key: Text, v: Value)
    requires key != "status_code" && v.StrValue?
    ensures PutMetadata(m, key, v) == ByName(m, key, v.s)
  {
    NamesDiffer();
  }

  lemma TextPut(f: Fields, key: Text, v: Value, k: Text)
    requires v.StrValue?
    ensures StrOf(f[key := v], k) == if k == key then v.s else StrOf(f, k)
  {
  }

  /** No two of the names are alike. */
  lemma Lengths()
    ensures |"content_type"| == 12 && |"content_length"| == 14 && |"content_range"| == 13 && |"etag"| == 4
    ensures "content_range"[0] == 'c' && "last_modified"[0] == 'l' && "accept_ranges"[0] == 'a'
  {
  }

  lemma NamesDiffer()
    ensures "content_type" != "content_length" && "content_type" != "content_range" && "content_type" != "etag"
    ensures "content_type" != "last_modified" && "content_type" != "accept_ranges"
    ensures "content_length" != "content_range" && "content_length" != "etag" && "content_length" != "last_modified"
    ensures "content_length" != "accept_ranges" && "content_range" != "etag" && "content_range" != "last_modified"
    ensures "content_range" != "accept_ranges" && "etag" != "last_modified" && "etag" != "accept_ranges"
    ensures "last_modified" != "accept_ranges"
  {
    Lengths();
  }

  lemma NothingPut()
    ensures MetadataOf(map[]) == NoMetadata
  {
  }

  /** The loop over the required names at the end of decodeHeaderMap. */
  method HasAll(seen: set<Text>) returns (complete: bool)
    ensures complete == (HEADER_SCHEMA.Keys <= seen)
  {
    var names: seq<Text> := ["request_id", "ingest_token", "body_length", "metadata"];
    for k := 0 to 4
      invariant forall j :: 0 <= j < k ==> names[j] in seen
    {
      if names[k] !in seen { assert names[k] in HEADER_SCHEMA; return false; }
    }
    assert names[0] in seen && names[1] in seen && names[2] in seen && names[3] in seen;
    complete := true;
  }

  function MetadataLoopResult(p: Parsed<Fields>): Result<(Metadata, set<Text>), Fault> {
    match p
    case Err(e) => Err(e)
    case Ok((f, rest)) => Ok((MetadataOf(f), f.Keys))
  }

  function HeaderLoopResult(p: Parsed<Fields>): Result<(Header, set<Text>), Fault> {
    match p
    case Err(e) => Err(e)
    case Ok((f, rest)) => Ok((HeaderOf(f), f.Keys))
  }

  /** msgpack.Decoder over the payload. */
  class Decoder {
    const data: Text
    var pos: nat

    ghost predicate Valid()
      reads this
    {
      pos <= |data|
    }

    ghost function Rest(): Text
      requires Valid()
      reads this
    {
      data[pos..]
    }

    constructor (data: Text)
      ensures Valid() && Rest() == data
    {
      this.data, pos := data, 0;
    }

    method MapLen() returns (r: Result<nat, Fault>)
      requires Valid()
      modifies this
      ensures Valid()
      ensures match DecodeMapLen(old(Rest())) case Err(e) => r == Err(e) case Ok((n, rest)) => r == Ok(n) && Rest() == rest
    {
      MapLenLeavesSuffix(Rest());
      match DecodeMapLen(data[pos..])
      case Err(e) => r := Err(e);
      case Ok((n, rest)) => pos, r := |data| - |rest|, Ok(n);
    }

    /** decodeStrictString. */
    method Str() returns (r: Result<Text, Fault>)
      requires Valid()
      modifies this
      ensures Valid()
      ensures match DecodeStr(old(Rest())) case Err(e) => r == Err(e) case Ok((s, rest)) => r == Ok(s) && Rest() == rest
    {
      LeavesSuffix(Rest());
      match DecodeStr(data[pos..])
      case Err(e) => r := Err(e);
      case Ok((s, rest)) => pos, r := |data| - |rest|, Ok(s);
    }

    /** decodeInt64. */
    method Int() returns (r: Result<int, Fault>)
      requires Valid()
      modifies this
      ensures Valid()
      ensures match DecodeInt(old(Rest())) case Err(e) => r == Err(e) case Ok((n, rest)) => r == Ok(n) && Rest() == rest
    {
      LeavesSuffix(Rest());
      match DecodeInt(data[pos..])
      case Err(e) => r := Err(e);
      case Ok((n, rest)) => pos, r := |data| - |rest|, Ok(n);
    }

    /** The switch of decodeMetadata. */
    method MetadataField(key: Text, m: Metadata) returns (r: Result<Metadata, Fault>, ghost v: Value)
      requires Valid()
      modifies this
      ensures Valid()
      ensures if key !in METADATA_SCHEMA then r == Err(Unknown)
              else match DecodeValue(METADATA_SCHEMA[key], old(Rest()))
                   case Err(e) => r == Err(e)
                   case Ok((w, rest)) => v == w && OfKind(METADATA_SCHEMA[key], v) && r == Ok(PutMetadata(m, key, v)) && Rest() == rest
    {
      if key == "status_code" {
        var n := Int();
        if n.Ok? { r, v := Ok(m.(statusCode := n.value)), IntValue(n.value); } else { r, v := Err(n.error), IntValue(0); }
      } else if key !in ["content_type", "content_length", "content_range", "etag", "last_modified", "accept_ranges"] {
        r, v := Err(Unknown), IntValue(0);
      } else {
        var s := Str();
        if s.Err? { return Err(s.error), IntValue(0); }
        v := StrValue(s.value);
        if key == "content_type" { r := Ok(m.(contentType := s.value)); }
        else if key == "content_length" { r := Ok(m.(contentLength := s.value)); }
        else if key == "content_range" { r := Ok(m.(contentRange := s.value)); }
        else if key == "etag" { r := Ok(m.(etag := s.value)); }
        else if key == "last_modified" { r := Ok(m.(lastModified := s.value)); }
        else { r := Ok(m.(acceptRanges := s.value)); }
      }
    }

    /** One round of the loop of decodeMetadata. */
    method NextMetadataField(seen: set<Text>, m: Metadata, ghost f: Fields) returns (r: Result<(Text, Metadata), Fault>, ghost v: Value)
      requires Valid() && m == MetadataOf(f)
      modifies this
      ensures Valid()
      ensures match DecodeField(METADATA_SCHEMA, seen, old(Rest()))
              case Err(e) => r == Err(e)
              case Ok((kv, rest)) => v == kv.1 && r == Ok((kv.0, MetadataOf(f[kv.0 := v]))) && Rest() == rest
    {
      v := IntValue(0);
      var key := Str();
      if key.Err? { return Err(key.error), v; }
      if key.value in seen { return Err(Duplicate), v; }
      var next;
      next, v := MetadataField(key.value, m);
      if next.Err? { return Err(next.error), v; }
      PutMetadataIs(f, key.value, v);
      r := Ok((key.value, next.value));
    }

    /** That round, seen from the whole loop: `goal` is what the loop is to answer. */
    method MetadataRound(n: nat, seen: set<Text>, m: Metadata, ghost f: Fields, ghost goal: Parsed<Fields>)
      returns (r: Result<(Text, Metadata), Fault>, ghost f': Fields)
      requires Valid() && m == MetadataOf(f) && seen == f.Keys && n > 0 && goal == DecodeFields(METADATA_SCHEMA, n, Rest(), f)
      modifies this
      ensures Valid()
      ensures r.Err? ==> goal == Err(r.error)
      ensures r.Ok? ==> goal == DecodeFields(METADATA_SCHEMA, n - 1, Rest(), f') && r.value.1 == MetadataOf(f') && f'.Keys == seen + {r.value.0}
    {
      ghost var v;
      r, v := NextMetadataField(seen, m, f);
      f' := if r.Ok? then f[r.value.0 := v] else f;
    }

    /** The loop of decodeMetadata: the record, and the keys it was built from. */
    method MetadataLoop(n: nat, ghost goal: Parsed<Fields>) returns (r: Result<(Metadata, set<Text>), Fault>)
      requires Valid() && goal == DecodeFields(METADATA_SCHEMA, n, Rest(), map[])
      modifies this
      ensures Valid() && r == MetadataLoopResult(goal) && (goal.Ok? ==> Rest() == goal.value.1)
    {
      ghost var f: Fields := map[];
      NothingPut();
      var m := NoMetadata;
      var seen: set<Text> := {};
      for i := 0 to n
        invariant Valid() && m == MetadataOf(f) && seen == f.Keys
        invariant goal == DecodeFields(METADATA_SCHEMA, n - i, Rest(), f)
      {
        var next;
        next, f := MetadataRound(n - i, seen, m, f, goal);
        if next.Err? { return Err(next.error); }
        seen, m := seen + {next.value.0}, next.value.1;
      }
      r := Ok((m, seen));
    }

    /** decodeMetadata. */
    method Metadata() returns (r: Result<Metadata, Fault>)
      requires Valid()
      modifies this
      ensures Valid()
      ensures match DecodeMetadata(old(Rest())) case Err(e) => r == Err(e) case Ok((m, rest)) => r == Ok(m) && Rest() == rest
    {
      var len := MapLen();
      if len.Err? { return Err(len.error); }
      var m := MetadataLoop(len.value, DecodeFields(METADATA_SCHEMA, len.value, Rest(), map[]));
      r := if m.Err? then Err(m.error) else Ok(m.value.0);
    }

    /** The switch of decodeHeaderMap. */
    method HeaderField(key: Text, h: Header) returns (r: Result<Header, Fault>, ghost v: Value)
      requires Valid()
      modifies this
      ensures Valid()
      ensures if key !in HEADER_SCHEMA then r == Err(Unknown)
              else match DecodeValue(HEADER_SCHEMA[key], old(Rest()))
                   case Err(e) => r == Err(e)
                   case Ok((w, rest)) => v == w && OfKind(HEADER_SCHEMA[key], v) && r == Ok(PutHeader(h, key, v)) && Rest() == rest
    {
      v := IntValue(0);
      if key == "request_id" || key == "ingest_token" {
        var s := Str();
        if s.Err? { return Err(s.error), v; }
        v := StrValue(s.value);
        r := Ok(if key == "request_id" then h.(requestId := s.value) else h.(ingestToken := s.value));
      } else if key == "body_length" {
        var n := Int();
        if n.Err? { return Err(n.error), v; }
        r, v := Ok(h.(bodyLength := n.value)), IntValue(n.value);
      } else if key == "metadata" {
        var m := Metadata();
        if m.Err? { return Err(m.error), v; }
        r, v := Ok(h.(metadata := m.value)), MapValue(m.value);
      } else {
        r := Err(Unknown);
      }
    }

    /** One round of the loop of decodeHeaderMap. */
    method NextHeaderField(seen: set<Text>, h: Header, ghost f: Fields) returns (r: Result<(Text, Header), Fault>, ghost v: Value)
      requires Valid() && h == HeaderOf(f)
      modifies this
      ensures Valid()
      ensures match DecodeField(HEADER_SCHEMA, seen, old(Rest()))
              case Err(e) => r == Err(e)
              case Ok((kv, rest)) => v == kv.1 && r == Ok((kv.0, HeaderOf(f[kv.0 := v]))) && Rest() == rest
    {
      v := IntValue(0);
      var key := Str();
      if key.Err? { return Err(key.error), v; }
      if key.value in seen { return Err(Duplicate), v; }
      var next;
      next, v := HeaderField(key.value, h);
      if next.Err? { return Err(next.error), v; }
      PutHeaderIs(f, key.value, v);
      r := Ok((key.value, next.value));
    }

    /** That round, seen from the whole loop: `goal` is what the loop is to answer. */
    method HeaderRound(n: nat, seen: set<Text>, h: Header, ghost f: Fields, ghost goal: Parsed<Fields>)
      returns (r: Result<(Text, Header), Fault>, ghost f': Fields)
      requires Valid() && h == HeaderOf(f) && seen == f.Keys && n > 0 && goal == DecodeFields(HEADER_SCHEMA, n, Rest(), f)
      modifies this
      ensures Valid()
      ensures r.Err? ==> goal == Err(r.error)
      ensures r.Ok? ==> goal == DecodeFields(HEADER_SCHEMA, n - 1, Rest(), f') && r.value.1 == HeaderOf(f') && f'.Keys == seen + {r.value.0}
    {
      ghost var v;
      r, v := NextHeaderField(seen, h, f);
      f' := if r.Ok? then f[r.value.0 := v] else f;
    }

    /** The loop of decodeHeaderMap: the record, and the keys it was built from. */
    method HeaderLoop(n: nat, ghost goal: Parsed<Fields>) returns (r: Result<(Header, set<Text>), Fault>)
      requires Valid() && goal == DecodeFields(HEADER_SCHEMA, n, Rest(), map[])
      modifies this
      ensures Valid() && r == HeaderLoopResult(goal) && (goal.Ok? ==> Rest() == goal.value.1)
    {
      ghost var f: Fields := map[];
      var h := Header("", "", 0, NoMetadata);
      var seen: set<Text> := {};
      for i := 0 to n
        invariant Valid() && h == HeaderOf(f) && seen == f.Keys
        invariant goal == DecodeFields(HEADER_SCHEMA, n - i, Rest(), f)
      {
        var next;
        next, f := HeaderRound(n - i, seen, h, f, goal);
        if next.Err? { return Err(next.error); }
        seen, h := seen + {next.value.0}, next.value.1;
      }
      r := Ok((h, seen));
    }

    /** decodeHeaderMap. */
    method HeaderMap() returns (r: Result<Header, Fault>)
      requires Valid()
      modifies this
      ensures Valid()
      ensures match DecodeHeaderMap(old(Rest())) case Err(e) => r == Err(e) case Ok((h, rest)) => r == Ok(h) && Rest() == rest
    {
      var len := MapLen();
      if len.Err? { return Err(len.error); }
      var h := HeaderLoop(len.value, DecodeFields(HEADER_SCHEMA, len.value, Rest(), map[]));
      if h.Err? { return Err(h.error); }
      var complete := HasAll(h.value.1);
      r := if complete then Ok(h.value.0) else Err(Missing);
    }
  }

  /** decodeHeaderPayload. */
  method DecodeHeaderPayload(payload: Text) returns (r: Result<Header, Fault>)
    ensures r == DecodePayload(payload)
  {
    var dec := new Decoder(payload);
    r := dec.HeaderMap();
    if r.Ok? {
      if dec.pos < |dec.data| { return Err(Trailing); }
      assert dec.Rest() == [];
      r := ValidateHeader(r.value);
    }
  }

  /** The connection as an io.Reader: each Read gives as many octets as the network happens to deliver. */
  class Source {
    const data: Text
    var pos: nat
    var sizes: seq<nat>

    ghost predicate Valid()
      reads this
    {
      pos <= |data|
    }

    ghost function Rest(): Text
      requires Valid()
      reads this
    {
      data[pos..]
    }

    constructor (data: Text, sizes: seq<nat>)
      ensures Valid() && Rest() == data
    {
      this.data, pos, this.sizes := data, 0, sizes;
    }

    method Read(limit: nat) returns (p: Text)
      requires Valid() && limit > 0
      modifies this
      ensures Valid() && |p| <= limit && old(Rest()) == p + Rest() && (p == [] <==> old(Rest()) == [])
    {
      var most := if sizes == [] then limit else if sizes[0] < limit then sizes[0] + 1 else limit;
      var n := if most <= |data| - pos then most else |data| - pos;
      p := data[pos..pos + n];
      pos := pos + n;
      sizes := if sizes == [] then [] else sizes[1..];
    }

    /** io.ReadFull: the next `n` octets, or everything there is and a failure. */
    method ReadFull(n: nat) returns (p: Text, ok: bool)
      requires Valid()
      modifies this
      ensures Valid() && ok == (n <= |old(Rest())|)
      ensures if ok then p == old(Rest())[..n] && Rest() == old(Rest())[n..] else p == old(Rest()) && Rest() == []
    {
      p, ok := [], true;
      while |p| < n && ok
        invariant Valid() && |p| <= n && old(Rest()) == p + Rest() && (!ok ==> Rest() == [] && |p| < n)
        decreases n - |p|, ok
      {
        var q := Read(n - |p|);
        Glue(p, q, Rest());
        p, ok := p + q, q != [];
      }
      Parts(old(Rest()), p, Rest());
    }
  }

  /** The prefix: the announced length. */
  method ReadPrefix(r: Source, limit: nat) returns (n: Result<nat, FrameFault>)
    requires r.Valid()
    modifies r
    ensures r.Valid()
    ensures var b := old(r.Rest());
            if |b| < PREFIX_BYTES then n == Err(Incomplete)
            else if b[..4] != MAGIC || b[4] as int != VERSION then n == Err(Malformed)
            else
              var k := FromBigEndian(b[5..9]);
              if k == 0 || k > limit then n == Err(Malformed) else n == Ok(k) && r.Rest() == b[9..]
  {
    ghost var b := r.Rest();
    var prefix, ok := r.ReadFull(PREFIX_BYTES);
    if !ok { return Err(Incomplete); }
    assert prefix[..4] == b[..4] && prefix[5..9] == b[5..9];
    if prefix[..4] != MAGIC { return Err(Malformed); }
    if prefix[4] as int != VERSION { return Err(Malformed); }
    var k := FromBigEndian(prefix[5..9]);
    n := if k == 0 || k > limit then Err(Malformed) else Ok(k);
  }

  /** Prefix and payload. */
  method ReadFrame(r: Source, maxHeaderBytes: int) returns (payload: Result<Text, FrameFault>)
    requires r.Valid()
    modifies r
    ensures r.Valid()
    ensures match Unframe(old(r.Rest()), maxHeaderBytes)
            case Err(e) => payload == Err(e)
            case Ok((p, rest)) => payload == Ok(p) && r.Rest() == rest
  {
    ghost var b := r.Rest();
    var n := ReadPrefix(r, if maxHeaderBytes <= 0 then DEFAULT_MAX_HEADER_BYTES else maxHeaderBytes);
    if n.Err? { return Err(n.error); }
    var p, ok := r.ReadFull(n.value);
    if !ok { return Err(Incomplete); }
    assert p == b[9..9 + n.value] && r.Rest() == b[9 + n.value..];
    payload := Ok(p);
  }

  /** DecodeHeader, however the octets arrive.  Whatever follows the announced payload stays unread, whether the
      header is accepted or not. */
  method DecodeHeader(r: Source, maxHeaderBytes: int) returns (h: Result<Header, FrameFault>)
    requires r.Valid()
    modifies r
    ensures r.Valid()
    ensures match Decode(old(r.Rest()), maxHeaderBytes) case Err(e) => h == Err(e) case Ok((x, rest)) => h == Ok(x) && r.Rest() == rest
    ensures Unframe(old(r.Rest()), maxHeaderBytes).Ok? ==> r.Rest() == Unframe(old(r.Rest()), maxHeaderBytes).value.1
  {
    var payload := ReadFrame(r, maxHeaderBytes);
    if payload.Err? { return Err(payload.error); }
    var x := DecodeHeaderPayload(payload.value);
    h := if x.Err? then Err(Rejected(x.error)) else Ok(x.value);
  }
}
