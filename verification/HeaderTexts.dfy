/** What the validation of an ingest header does to its texts, and the octets of a frame, said without the functions that
    compute them (internal/ingest/metadata.go, internal/ingeststream/frame.go). */
module HeaderTexts {
  import opened Octets
  import opened Decimals
  import opened MessagePack
  import opened Frames
  import opened CodePoints
  import FP = FrameProofs

  /** `v` is what a metadata text `s` is kept as: on one line, without the white space around it, not too long. */
  ghost predicate Kept(s: Text, v: Text) {
    '\r' !in s && '\n' !in s && Trims(s, v) && |v| <= 8192
  }

  lemma FieldIsKept(s: Text, v: Text)
    ensures ValidateField(s) == Ok(v) <==> Kept(s, v)
  {
    TrimSpaceIs(s, v);
  }

  /** Every text of the header, kept. */
  ghost predicate TextsKept(m: Metadata, n: Metadata) {
    && Kept(m.contentType, n.contentType) && Kept(m.contentLength, n.contentLength) && Kept(m.contentRange, n.contentRange)
    && Kept(m.etag, n.etag) && Kept(m.lastModified, n.lastModified) && Kept(m.acceptRanges, n.acceptRanges)
  }

  lemma MetadataIsKept(m: Metadata, n: Metadata)
    ensures ValidateMetadata(m) == Ok(n) <==>
              && TextsKept(m, n) && n.statusCode == m.statusCode && (m.statusCode == 0 || 100 <= m.statusCode <= 599)
              && (n.contentLength == [] || IsLength(n.contentLength))
  {
    FieldIsKept(m.contentType, n.contentType);
    FieldIsKept(m.contentLength, n.contentLength);
    FieldIsKept(m.contentRange, n.contentRange);
    FieldIsKept(m.etag, n.etag);
    FieldIsKept(m.lastModified, n.lastModified);
    FieldIsKept(m.acceptRanges, n.acceptRanges);
  }

  /** Exactly which headers are accepted, and as what: identifier, token, length and status are kept as they are, every
      metadata text is kept without the white space around it. */
  lemma HeaderIsAcceptedAs(h: Header, h': Header)
    ensures ValidateHeader(h) == Ok(h') <==>
              && h.requestId != [] && h.ingestToken != [] && h.bodyLength >= -1
              && h'.requestId == h.requestId && h'.ingestToken == h.ingestToken && h'.bodyLength == h.bodyLength
              && TextsKept(h.metadata, h'.metadata) && h'.metadata.statusCode == h.metadata.statusCode
              && (h.metadata.statusCode == 0 || 100 <= h.metadata.statusCode <= 599)
              && (h'.metadata.contentLength == [] || IsLength(h'.metadata.contentLength))
  {
    MetadataIsKept(h.metadata, h'.metadata);
  }

  /** A content length is a number that is not negative and has 63 bits, with or without a sign. */
  lemma LengthOfNumber(n: nat)
    ensures IsLength(Decimal(n)) <==> n < 0x8000_0000_0000_0000
    ensures IsLength(['+'] + Decimal(n)) <==> n < 0x8000_0000_0000_0000
    ensures IsLength(['-'] + Decimal(n)) <==> n == 0
  {
    DecimalReturns(n);
    assert (['+'] + Decimal(n))[1..] == Decimal(n) && (['-'] + Decimal(n))[1..] == Decimal(n);
    assert '0' <= Decimal(n)[0] <= '9';
  }

  lemma LengthHasDigits(s: Text)
    requires IsLength(s)
    ensures s != [] && AllDigits(s[1..]) && ('0' <= s[0] <= '9' || ((s[0] == '+' || s[0] == '-') && s[1..] != []))
  {
  }

  // ----- headers that are clean already -----

  ghost predicate Clean(s: Text) {
    !StartsWhite(s) && !EndsWhite(s)
  }

  ghost predicate CleanTexts(m: Metadata) {
    Clean(m.contentType) && Clean(m.contentLength) && Clean(m.contentRange) && Clean(m.etag) && Clean(m.lastModified) && Clean(m.acceptRanges)
  }

  lemma CleanIsKept(s: Text, v: Text)
    requires Clean(s) && Kept(s, v)
    ensures v == s
  {
    assert Spell([]) + s + Spell([]) == s;
    assert Trims(s, s);
    TrimSpaceIs(s, s);
    TrimSpaceIs(s, v);
  }

  lemma CleanHeaderIsKept(h: Header)
    requires ValidateHeader(h).Ok? && CleanTexts(h.metadata)
    ensures ValidateHeader(h) == Ok(h)
  {
    var h' := ValidateHeader(h).value;
    HeaderIsAcceptedAs(h, h');
    var m, n := h.metadata, h'.metadata;
    CleanIsKept(m.contentType, n.contentType);
    CleanIsKept(m.contentLength, n.contentLength);
    CleanIsKept(m.contentRange, n.contentRange);
    CleanIsKept(m.etag, n.etag);
    CleanIsKept(m.lastModified, n.lastModified);
    CleanIsKept(m.acceptRanges, n.acceptRanges);
  }

  /** For every acceptable header without white space around its texts, decoding the encoded frame in front of any body
      gives that very header back and leaves that body. */
  lemma CleanHeaderReturns(h: Header, body: Text)
    requires IsInt64(h.bodyLength) && IsInt64(h.metadata.statusCode) && Encode(h).Ok? && CleanTexts(h.metadata)
    ensures Decode(Encode(h).value + body, 0) == Ok((h, body))
  {
    EncodedIsValid(h);
    CleanHeaderIsKept(h);
    FP.FrameRoundTrip(h, body, 0);
  }

  lemma EncodedIsValid(h: Header)
    requires IsInt64(h.bodyLength) && IsInt64(h.metadata.statusCode) && Encode(h).Ok?
    ensures ValidateHeader(h).Ok?
  {
  }

  /** The prefix of every frame: the magic, the version, and the length of the payload, most significant octet first; the
      payload begins as a map of four. */
  lemma FrameLayout(h: Header)
    requires IsInt64(h.bodyLength) && IsInt64(h.metadata.statusCode) && Encode(h).Ok?
    ensures var f := Encode(h).value;
            && 9 < |f| <= 9 + 65536 && f[..4] == "AI3T" && f[4] as int == 1 && f[9] as int == 0x84
            && |f| - 9 == ((f[5] as int * 256 + f[6] as int) * 256 + f[7] as int) * 256 + f[8] as int
  {
    EncodedIsFramed(h);
    var p := Payload(ValidateHeader(h).value);
    PayloadStarts(ValidateHeader(h).value);
    FramedLayout(p);
  }

  lemma EncodedIsFramed(h: Header)
    requires IsInt64(h.bodyLength) && IsInt64(h.metadata.statusCode) && Encode(h).Ok?
    ensures ValidateHeader(h).Ok? && Encodable(ValidateHeader(h).value)
    ensures var p := Payload(ValidateHeader(h).value); |p| <= 65536 && Encode(h).value == Framed(p)
  {
  }

  lemma PayloadStarts(h: Header)
    requires Encodable(h)
    ensures Payload(h) != [] && Payload(h)[0] as int == 0x84
  {
  }

  lemma FramedLayout(p: Text)
    requires 0 < |p| <= 65536
    ensures var f := Framed(p);
            && |f| == 9 + |p| && f[..4] == "AI3T" && f[4] as int == 1 && f[9] == p[0]
            && |p| == ((f[5] as int * 256 + f[6] as int) * 256 + f[7] as int) * 256 + f[8] as int
  {
    Powers();
    var b := BigEndian(|p|, 4);
    BigEndianRoundTrip(|p|, 4);
    FourOctets(b);
    var f := Framed(p);
    assert f == MAGIC + ([Byte(VERSION)] + (b + p));
    assert f[..4] == MAGIC && f[5..9] == b;
    assert f[5] == b[0] && f[6] == b[1] && f[7] == b[2] && f[8] == b[3];
  }

  lemma FourOctets(b: Text)
    requires |b| == 4
    ensures FromBigEndian(b) == ((b[0] as int * 256 + b[1] as int) * 256 + b[2] as int) * 256 + b[3] as int
  {
    var x := b[..3];
    var y := x[..2];
    var z := y[..1];
    assert z[..0] == [] && FromBigEndian(z[..0]) == 0;
    assert FromBigEndian(z) == b[0] as int;
    assert FromBigEndian(y) == b[0] as int * 256 + b[1] as int;
    assert FromBigEndian(x) == FromBigEndian(y) * 256 + b[2] as int;
  }

  // ----- the formats -----

  /** The code octets of a str and the length behind them. */
  lemma StrFormat(s: Text)
    requires |s| < 0x1_0000
    ensures EncodeStr(s) ==
            (if |s| < 32 then [(0xA0 + |s|) as char]
             else if |s| < 256 then [0xD9 as char, |s| as char]
             else [0xDA as char, (|s| / 256) as char, (|s| % 256) as char]) + s
  {
    Powers();
    if |s| >= 32 { if |s| < 256 { OneOctet(|s|); } else { TwoOctets(|s|); } }
  }

  lemma OneOctet(n: nat)
    requires n < 256
    ensures Pow256(1) == 256 && BigEndian(n, 1) == [n as char]
  {
    Powers();
    assert BigEndian(0, 0) == [];
  }

  lemma TwoOctets(n: nat)
    requires n < 0x1_0000
    ensures Pow256(2) == 0x1_0000 && BigEndian(n, 2) == [(n / 256) as char, (n % 256) as char]
  {
    Powers();
    OneOctet(n / 256);
  }

  /** The code octets of an int that fits two octets or the code itself. */
  lemma IntFormat(n: int)
    requires -32 <= n < 0x1_0000
    ensures EncodeInt(n) ==
            if n < 0 then [(n + 256) as char]
            else if n < 128 then [n as char]
            else if n < 256 then [0xCC as char, n as char]
            else [0xCD as char, (n / 256) as char, (n % 256) as char]
  {
    Powers();
    if n >= 128 { if n < 256 { OneOctet(n); } else { TwoOctets(n); } }
  }
}
