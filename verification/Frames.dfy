/** The ingest frame: a 9-octet prefix and a strict MessagePack header in front of the raw body
    (internal/ingeststream/frame.go, internal/ingest/metadata.go). */
module Frames {
  import opened Octets
  import opened Decimals
  import opened MessagePack
  import opened Runes

  datatype Metadata = Metadata(
      statusCode: int, contentType: Text, contentLength: Text, contentRange: Text,
      etag: Text, lastModified: Text, acceptRanges: Text)

  datatype Header = Header(requestId: Text, ingestToken: Text, bodyLength: int, metadata: Metadata)

  const UNKNOWN_BODY_LENGTH := -1
  const DEFAULT_MAX_HEADER_BYTES := 65536
  const MAX_METADATA_FIELD_BYTES := 8192
  const MAGIC: Text := "AI3T"
  const VERSION := 1
  const PREFIX_BYTES := 9

  // ----- validation -----

  predicate HasLineBreak(s: Text) {
    '\r' in s || '\n' in s
  }

  function ValidateField(s: Text): Result<Text, Fault> {
    if HasLineBreak(s) then Err(Invalid)
    else if |TrimSpace(s)| > MAX_METADATA_FIELD_BYTES then Err(Invalid)
    else Ok(TrimSpace(s))
  }

  /** strconv.ParseInt in base 10 and 64 bits: an optional sign and at least one digit. */
  function ParseInt64(s: Text): Option<int> {
    var digits := if s != [] && (s[0] == '+' || s[0] == '-') then s[1..] else s;
    if digits == [] || !AllDigits(digits) then None
    else
      var n := if s[0] == '-' then -DecimalValue(digits) else DecimalValue(digits);
      if IsInt64(n) then Some(n) else None
  }

  predicate IsLength(s: Text) {
    ParseInt64(s).Some? && ParseInt64(s).value >= 0
  }

  function ValidateMetadata(m: Metadata): Result<Metadata, Fault> {
    match (ValidateField(m.contentType), ValidateField(m.contentLength), ValidateField(m.contentRange),
           ValidateField(m.etag), ValidateField(m.lastModified), ValidateField(m.acceptRanges))
    case (Ok(ct), Ok(cl), Ok(cr), Ok(et), Ok(lm), Ok(ar)) =>
      if m.statusCode != 0 && !(100 <= m.statusCode <= 599) then Err(Invalid)
      else if cl != [] && !IsLength(cl) then Err(Invalid)
      else Ok(Metadata(m.statusCode, ct, cl, cr, et, lm, ar))
    case _ => Err(Invalid)
  }

  function ValidateHeader(h: Header): Result<Header, Fault> {
    if h.requestId == [] || h.ingestToken == [] || h.bodyLength < UNKNOWN_BODY_LENGTH then Err(Invalid)
    else
      match ValidateMetadata(h.metadata)
      case Err(e) => Err(e)
      case Ok(m) => Ok(h.(metadata := m))
  }

  lemma ValidateFieldIdempotent(s: Text)
    requires ValidateField(s).Ok?
    ensures ValidateField(ValidateField(s).value) == ValidateField(s)
  {
    TrimSpaceIdempotent(s);
    var t := TrimSpace(s);
    forall c | c in t ensures c in s { TrimmedPart(s); }
  }

  lemma TrimmedPart(s: Text)
    ensures forall c :: c in TrimSpace(s) ==> c in s
  {
  }

  /** Validation is a normal form. */
  lemma ValidateHeaderIdempotent(h: Header)
    requires ValidateHeader(h).Ok?
    ensures ValidateHeader(ValidateHeader(h).value) == ValidateHeader(h)
  {
    ValidateMetadataIdempotent(h.metadata);
  }

  lemma ValidateMetadataIdempotent(m: Metadata)
    requires ValidateMetadata(m).Ok?
    ensures ValidateMetadata(ValidateMetadata(m).value) == ValidateMetadata(m)
  {
    ValidateFieldIdempotent(m.contentType);
    ValidateFieldIdempotent(m.contentLength);
    ValidateFieldIdempotent(m.contentRange);
    ValidateFieldIdempotent(m.etag);
    ValidateFieldIdempotent(m.lastModified);
    ValidateFieldIdempotent(m.acceptRanges);
  }

  // ----- encoding -----

  /** Strings a str header can announce.  Longer ones are over the payload limit anyway. */
  predicate Encodable(h: Header) {
    var m := h.metadata;
    && IsInt64(h.bodyLength) && IsInt64(m.statusCode)
    && |h.requestId| < 0x1_0000_0000 && |h.ingestToken| < 0x1_0000_0000
    && |m.contentType| < 0x1_0000_0000 && |m.contentLength| < 0x1_0000_0000 && |m.contentRange| < 0x1_0000_0000
    && |m.etag| < 0x1_0000_0000 && |m.lastModified| < 0x1_0000_0000 && |m.acceptRanges| < 0x1_0000_0000
  }

  function StrField(key: Text, value: Text): Text
    requires |key| < 0x1_0000_0000 && |value| < 0x1_0000_0000
  {
    EncodeStr(key) + EncodeStr(value)
  }

  function IntField(key: Text, value: int): Text
    requires |key| < 0x1_0000_0000 && IsInt64(value)
  {
    EncodeStr(key) + EncodeInt(value)
  }

  function MetadataFields(m: Metadata): seq<Text>
    requires Encodable(Header("", "", 0, m))
  {
    [IntField("status_code", m.statusCode), StrField("content_type", m.contentType),
     StrField("content_length", m.contentLength), StrField("content_range", m.contentRange),
     StrField("etag", m.etag), StrField("last_modified", m.lastModified), StrField("accept_ranges", m.acceptRanges)]
  }

  function HeaderFields(h: Header): seq<Text>
    requires Encodable(h)
  {
    [StrField("request_id", h.requestId), StrField("ingest_token", h.ingestToken),
     IntField("body_length", h.bodyLength),
     EncodeStr("metadata") + EncodeMapLen(7) + Concat(MetadataFields(h.metadata))]
  }

  function Concat(parts: seq<Text>): Text {
    if parts == [] then [] else parts[0] + Concat(parts[1..])
  }

  function Payload(h: Header): Text
    requires Encodable(h)
  {
    EncodeMapLen(4) + Concat(HeaderFields(h))
  }

  /** EncodeHeader: the octets written, or nothing. */
  function Encode(h: Header): Result<Text, Fault>
    requires IsInt64(h.bodyLength) && IsInt64(h.metadata.statusCode)
  {
    match ValidateHeader(h)
    case Err(e) => Err(e)
    case Ok(h') =>
      if !Encodable(h') || |Payload(h')| > DEFAULT_MAX_HEADER_BYTES then Err(OutOfRange)
      else Ok(Framed(Payload(h')))
  }

  function Framed(payload: Text): Text
    requires |payload| < 0x1_0000_0000
  {
    Powers();
    MAGIC + [Byte(VERSION)] + BigEndian(|payload|, 4) + payload
  }

  // ----- decoding -----

  datatype Kind = StrKind | IntKind | MapKind
  datatype Value = StrValue(s: Text) | IntValue(n: int) | MapValue(m: Metadata)

  type Schema = map<Text, Kind>

  const HEADER_SCHEMA: Schema := map["request_id" := StrKind, "ingest_token" := StrKind, "body_length" := IntKind, "metadata" := MapKind]

  const METADATA_SCHEMA: Schema := map[
    "status_code" := IntKind, "content_type" := StrKind, "content_length" := StrKind, "content_range" := StrKind,
    "etag" := StrKind, "last_modified" := StrKind, "accept_ranges" := StrKind]

  type Fields = map<Text, Value>

  function StrOf(f: Fields, key: Text): Text {
    if key in f && f[key].StrValue? then f[key].s else ""
  }

  function IntOf(f: Fields, key: Text): int {
    if key in f && f[key].IntValue? then f[key].n else 0
  }

  function MetadataOf(f: Fields): Metadata {
    Metadata(IntOf(f, "status_code"), StrOf(f, "content_type"), StrOf(f, "content_length"), StrOf(f, "content_range"),
             StrOf(f, "etag"), StrOf(f, "last_modified"), StrOf(f, "accept_ranges"))
  }

  const NoMetadata := Metadata(0, "", "", "", "", "", "")

  function HeaderOf(f: Fields): Header {
    Header(StrOf(f, "request_id"), StrOf(f, "ingest_token"), IntOf(f, "body_length"),
           if "metadata" in f && f["metadata"].MapValue? then f["metadata"].m else NoMetadata)
  }

  function DecodeValue(kind: Kind, b: Text): Parsed<Value>
    decreases kind.MapKind?, 0, 0
  {
    match kind
    case StrKind => (match DecodeStr(b) case Err(e) => Err(e) case Ok((s, r)) => Ok((StrValue(s), r)))
    case IntKind => (match DecodeInt(b) case Err(e) => Err(e) case Ok((n, r)) => Ok((IntValue(n), r)))
    case MapKind => (match DecodeMetadata(b) case Err(e) => Err(e) case Ok((m, r)) => Ok((MapValue(m), r)))
  }

  /** One key and its value. */
  function DecodeField(schema: Schema, seen: set<Text>, b: Text): Parsed<(Text, Value)>
    decreases MapKind in schema.Values, 1, 0
  {
    match DecodeStr(b)
    case Err(e) => Err(e)
    case Ok((key, r)) =>
      if key in seen then Err(Duplicate)
      else if key !in schema then Err(Unknown)
      else
        match DecodeValue(schema[key], r)
        case Err(e) => Err(e)
        case Ok((v, r')) => Ok(((key, v), r'))
  }

  /** `n` more fields, after those in `f`. */
  function DecodeFields(schema: Schema, n: nat, b: Text, f: Fields): Parsed<Fields>
    decreases MapKind in schema.Values, 2, n
  {
    if n == 0 then Ok((f, b))
    else
      match DecodeField(schema, f.Keys, b)
      case Err(e) => Err(e)
      case Ok((kv, r)) => DecodeFields(schema, n - 1, r, f[kv.0 := kv.1])
  }

  /** A whole map. */
  function DecodeMap(schema: Schema, b: Text): Parsed<Fields>
    decreases MapKind in schema.Values, 3, 0
  {
    match DecodeMapLen(b)
    case Err(e) => Err(e)
    case Ok((n, r)) => DecodeFields(schema, n, r, map[])
  }

  function DecodeMetadata(b: Text): Parsed<Metadata>
    decreases false, 4, 0
  {
    match DecodeMap(METADATA_SCHEMA, b)
    case Err(e) => Err(e)
    case Ok((f, r)) => Ok((MetadataOf(f), r))
  }

  predicate Complete(f: Fields) {
    HEADER_SCHEMA.Keys <= f.Keys
  }

  function DecodeHeaderMap(b: Text): Parsed<Header> {
    match DecodeMap(HEADER_SCHEMA, b)
    case Err(e) => Err(e)
    case Ok((f, r)) => if Complete(f) then Ok((HeaderOf(f), r)) else Err(Missing)
  }

  function DecodePayload(p: Text): Result<Header, Fault> {
    match DecodeHeaderMap(p)
    case Err(e) => Err(e)
    case Ok((h, r)) => if r != [] then Err(Trailing) else ValidateHeader(h)
  }

  datatype FrameFault = Incomplete | Malformed | Rejected(why: Fault)

  /** The payload announced by the prefix, and what follows it. */
  function Unframe(b: Text, maxHeaderBytes: int): Result<(Text, Text), FrameFault> {
    var limit := if maxHeaderBytes <= 0 then DEFAULT_MAX_HEADER_BYTES else maxHeaderBytes;
    if |b| < PREFIX_BYTES then Err(Incomplete)
    else if b[..4] != MAGIC || b[4] as int != VERSION then Err(Malformed)
    else
      var n := FromBigEndian(b[5..9]);
      if n == 0 || n > limit then Err(Malformed)
      else if |b| < PREFIX_BYTES + n then Err(Incomplete)
      else Ok((b[9..9 + n], b[9 + n..]))
  }

  /** DecodeHeader on the octets that have arrived: the header and what is still unread. */
  function Decode(b: Text, maxHeaderBytes: int): Result<(Header, Text), FrameFault> {
    match Unframe(b, maxHeaderBytes)
    case Err(e) => Err(e)
    case Ok((p, rest)) =>
      match DecodePayload(p)
      case Err(e) => Err(Rejected(e))
      case Ok(h) => Ok((h, rest))
  }
}
