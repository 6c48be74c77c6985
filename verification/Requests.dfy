/** Requests as they are registered (internal/pending/registry.go, validateRequest, and the checks of
    internal/tickets/ticket.go that it uses). */
module Requests {
  import opened Octets
  import opened Decimals
  import opened Names
  import opened Strings
  import R = Runes
  import opened HeldRequests

  datatype Rewrite = Rewrite(bucket: Text, prefix: Text, keyPrefix: Text)

  datatype ListRequest = ListRequest(
      prefix: Text, delimiter: Text, continuationToken: Text, startAfter: Text, maxKeys: int, encodingType: Text, rewrite: Rewrite)

  /** The zero time is None. */
  datatype Request = Request(
      id: Text, token: Text, verb: Text, operation: Text, bucket: Text, key: Text, range: Text,
      list: Option<ListRequest>, deadline: Option<int>)

  const GET_OBJECT: Text := "GetObject"
  const HEAD_OBJECT: Text := "HeadObject"
  const LIST_OBJECTS: Text := "ListObjectsV2"
  const PUT_OBJECT: Text := "PutObject"
  const DELETE_OBJECT: Text := "DeleteObject"
  const CREATE_UPLOAD: Text := "CreateMultipartUpload"
  const UPLOAD_PART: Text := "UploadPart"
  const COMPLETE_UPLOAD: Text := "CompleteMultipartUpload"
  const ABORT_UPLOAD: Text := "AbortMultipartUpload"

  /** The method that an operation goes with. */
  function VerbOf(operation: Text): Option<Text> {
    if operation == GET_OBJECT || operation == LIST_OBJECTS then Some("GET")
    else if operation == HEAD_OBJECT then Some("HEAD")
    else if operation == PUT_OBJECT || operation == UPLOAD_PART then Some("PUT")
    else if operation == DELETE_OBJECT || operation == ABORT_UPLOAD then Some("DELETE")
    else if operation == CREATE_UPLOAD || operation == COMPLETE_UPLOAD then Some("POST")
    else None
  }

  /** ResolveOperation: older object tickets name the method only. */
  function Resolve(verb: Text, operation: Text): Option<Text> {
    if operation == [] then
      if verb == "GET" then Some(GET_OBJECT) else if verb == "HEAD" then Some(HEAD_OBJECT) else None
    else if VerbOf(operation) == Some(verb) then Some(operation)
    else None
  }

  predicate IsInt63(digits: Text) {
    AllDigits(digits) && DecimalValue(digits) < 0x8000_0000_0000_0000
  }

  const BYTES: Text := "bytes="

  /** validRange: one range with a start, an end or both; only when both are there are they read as numbers. */
  predicate ValidRange(s: Text) {
    && BYTES <= s && '-' in s[|BYTES|..]
    && var (first, last) := Cut(s[|BYTES|..], '-');
       && AllDigits(first) && AllDigits(last) && (first != [] || last != [])
       && (first != [] && last != [] ==> IsInt63(first) && IsInt63(last) && DecimalValue(first) <= DecimalValue(last))
  }

  /** validateKeyLike of a field that may be empty. */
  predicate OptionalKey(s: Text) {
    s == [] || ValidKey(s)
  }

  /** ValidateListRequest. */
  predicate ValidList(list: ListRequest) {
    && 0 <= list.maxKeys <= 1000
    && (list.delimiter == [] || list.delimiter == "/") && (list.encodingType == [] || list.encodingType == "url")
    && OptionalKey(list.prefix) && OptionalKey(list.startAfter)
    && |list.continuationToken| <= 2048 && !R.HasControl(list.continuationToken)
    && ValidBucket(list.rewrite.bucket) && OptionalKey(list.rewrite.prefix) && OptionalKey(list.rewrite.keyPrefix)
  }

  /** The fields of an operation. */
  predicate Shaped(q: Request, operation: Text) {
    if operation == GET_OBJECT || operation == HEAD_OBJECT then
      q.list.None? && ValidKey(q.key) && (q.range == [] || ValidRange(q.range))
    else if operation == LIST_OBJECTS then
      q.key == [] && q.range == [] && q.list.Some? && ValidList(q.list.value)
    else
      q.list.None? && q.range == [] && ValidKey(q.key)
  }

  /** validateRequest, which looks at the deadline in the middle. */
  function Objection(q: Request, now: int): Option<Failure> {
    if !SafeToken(q.id) || !SafeToken(q.token) || Resolve(q.verb, q.operation).None? || !ValidBucket(q.bucket) then Some(InvalidRequest)
    else if q.deadline.None? || q.deadline.value <= now then Some(Failure.Expired)
    else if !Shaped(q, Resolve(q.verb, q.operation).value) then Some(InvalidRequest)
    else None
  }

  // ----- which requests are accepted -----

  /** A byte range as it is written: from, to, or both. */
  predicate RangeOf(s: Text, first: Text, last: Text) {
    && s == "bytes=" + first + "-" + last && AllDigits(first) && AllDigits(last) && (first != [] || last != [])
    && (first != [] && last != [] ==> DecimalValue(first) <= DecimalValue(last) < 0x8000_0000_0000_0000)
  }

  ghost predicate IsRange(s: Text) {
    exists first, last :: RangeOf(s, first, last)
  }

  lemma DigitsHaveNoDash(s: Text)
    requires AllDigits(s)
    ensures '-' !in s
  {
  }

  lemma RangeText(first: Text, last: Text)
    ensures var s := "bytes=" + first + "-" + last; BYTES <= s && s[|BYTES|..] == first + ['-'] + last && '-' in s[|BYTES|..]
  {
    var s := "bytes=" + first + "-" + last;
    assert s == BYTES + (first + ['-'] + last);
    assert (first + ['-'] + last)[|first|] == '-';
  }

  lemma RangeIsValid(s: Text, first: Text, last: Text)
    requires RangeOf(s, first, last)
    ensures ValidRange(s)
  {
    RangeText(first, last);
    DigitsHaveNoDash(first);
    CutOfGlued(first, last, '-');
  }

  lemma ValidIsRange(s: Text)
    requires ValidRange(s)
    ensures var (first, last) := Cut(s[|BYTES|..], '-'); RangeOf(s, first, last)
  {
    var rest := s[|BYTES|..];
    var (first, last) := Cut(rest, '-');
    CutParts(rest, '-');
    RangeText(first, last);
    assert s == BYTES + rest && "bytes=" + first + "-" + last == BYTES + (first + ['-'] + last);
  }

  lemma RangeIs(s: Text)
    ensures ValidRange(s) <==> IsRange(s)
  {
    if ValidRange(s) { ValidIsRange(s); }
    if first, last :| RangeOf(s, first, last) { RangeIsValid(s, first, last); }
  }

  lemma {:induction false} CutParts(s: Text, sep: Octet)
    requires sep in s
    ensures var (a, b) := Cut(s, sep); s == a + [sep] + b
  {
    if s[0] == sep {
      assert s == [] + [sep] + s[1..];
    } else {
      CutParts(s[1..], sep);
      var (a, b) := Cut(s[1..], sep);
      assert s == [s[0]] + s[1..];
      Glue([s[0]], a, [sep] + b);
      Glue(a, [sep], b);
      Glue([s[0]] + a, [sep], b);
    }
  }

  /** Reading an object: by the older tickets without an operation, too. */
  ghost predicate Reads(q: Request) {
    && ((q.verb == "GET" && (q.operation == "" || q.operation == "GetObject")) || (q.verb == "HEAD" && (q.operation == "" || q.operation == "HeadObject")))
    && q.list.None? && ValidKey(q.key) && (q.range == [] || IsRange(q.range))
  }

  predicate Lists(q: Request) {
    && q.verb == "GET" && q.operation == "ListObjectsV2" && q.key == [] && q.range == []
    && q.list.Some? && ValidList(q.list.value)
  }

  predicate Changes(q: Request) {
    && (|| (q.verb == "PUT" && (q.operation == "PutObject" || q.operation == "UploadPart"))
        || (q.verb == "DELETE" && (q.operation == "DeleteObject" || q.operation == "AbortMultipartUpload"))
        || (q.verb == "POST" && (q.operation == "CreateMultipartUpload" || q.operation == "CompleteMultipartUpload")))
    && q.list.None? && q.range == [] && ValidKey(q.key)
  }

  lemma OperationsDiffer()
    ensures var ops := [GET_OBJECT, HEAD_OBJECT, LIST_OBJECTS, PUT_OBJECT, DELETE_OBJECT, CREATE_UPLOAD, UPLOAD_PART, COMPLETE_UPLOAD, ABORT_UPLOAD];
            forall i, j :: 0 <= i < j < |ops| ==> ops[i] != ops[j]
    ensures [] !in [GET_OBJECT, HEAD_OBJECT, LIST_OBJECTS, PUT_OBJECT, DELETE_OBJECT, CREATE_UPLOAD, UPLOAD_PART, COMPLETE_UPLOAD, ABORT_UPLOAD]
  {
  }

  /** A request is accepted exactly when its names are safe, its deadline is still to come, and it reads an object, lists, or
      changes something, each with the method and the fields that go with it. */
  lemma AcceptedExactlyWhen(q: Request, now: int)
    ensures Objection(q, now).None? <==>
              && SafeToken(q.id) && SafeToken(q.token) && ValidBucket(q.bucket) && q.deadline.Some? && now < q.deadline.value
              && (Reads(q) || Lists(q) || Changes(q))
    ensures Objection(q, now) == Some(Failure.Expired) ==> q.deadline.None? || q.deadline.value <= now
  {
    RangeIs(q.range);
    OperationsDiffer();
  }
}
