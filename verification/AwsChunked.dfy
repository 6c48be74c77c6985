/** The aws-chunked reader (internal/s3api/awschunked.go): an exact-length filter over a decoded chunk stream
    (section 7.1 of RFC 9112) that arrives in reads of any size. */
module AwsChunked {
  import opened Octets

  /** How the decoded stream ends: the terminal chunk, a truncated chunk, or another failure. */
  datatype End = Eof | UnexpectedEof | Failure(code: nat)

  /** One read of the inner reader: at most `size` octets, and whether the end, once reached, is reported together
      with the last octets. */
  datatype Hint = Hint(size: nat, eager: bool)

  /** The inner io.Reader: what is left to decode, how it ends, and how the next reads will behave.  Reads without
      octets and without an end may occur, but only finitely often. */
  datatype Inner = Inner(left: Text, end: End, plan: seq<Hint>)

  function Min(a: nat, b: nat): nat {
    if a <= b then a else b
  }

  /** How many octets the next inner read with a buffer of `len` delivers. */
  function Delivered(x: Inner, len: nat): (n: nat)
    ensures n <= len && n <= |x.left|
  {
    Min(Min(if x.plan == [] then len else x.plan[0].size, len), |x.left|)
  }

  function Tail(x: Inner, len: nat): Inner {
    Inner(x.left[Delivered(x, len)..], x.end, if x.plan == [] then [] else x.plan[1..])
  }

  function ReportsEnd(x: Inner, len: nat): bool {
    Delivered(x, len) == |x.left| && if x.plan == [] then x.left == [] else x.plan[0].eager
  }

  datatype Verdict = Clean | TooShort | TooLong | Broken(e: End)

  datatype Reader = Reader(inner: Inner, remaining: int, err: Option<Verdict>)

  function NewReader(inner: Inner, declared: int): Reader {
    Reader(inner, declared, None)
  }

  /** finish: io.ReadFull of a single octet. */
  function FinishOf(x: Inner): (Verdict, Inner)
    decreases |x.plan|, |x.left|
  {
    if Delivered(x, 1) > 0 then (TooLong, Tail(x, 1))
    else if !ReportsEnd(x, 1) && x.plan != [] then FinishOf(Tail(x, 1))
    else if x.end.Failure? then (Broken(x.end), Tail(x, 1))
    else (Clean, Tail(x, 1))
  }

  /** Read with a buffer of `len` octets: what is stored in it, the error, and the reader afterwards. */
  function ReadOnce(r: Reader, len: nat): (Text, Option<Verdict>, Reader) {
    if r.err.Some? then ([], r.err, r)
    else if r.remaining <= 0 then
      var (v, inner) := FinishOf(r.inner);
      ([], Some(v), Reader(inner, r.remaining, Some(v)))
    else
      var k := Min(len, r.remaining);
      var bytes := r.inner.left[..Delivered(r.inner, k)];
      var remaining := r.remaining - |bytes|;
      var err :=
        if !ReportsEnd(r.inner, k) then None
        else if r.inner.end.Eof? then Some(if remaining > 0 then TooShort else Clean)
        else Some(Broken(r.inner.end));
      (bytes, err, Reader(Tail(r.inner, k), remaining, err))
  }

  /** Reads with buffers of the given sizes: everything handed out, and the reader afterwards. */
  function ReadAll(r: Reader, sizes: seq<nat>): (Text, Reader)
    decreases |sizes|
  {
    if sizes == [] then ([], r)
    else
      var (bytes, _, r') := ReadOnce(r, sizes[0]);
      var (more, r'') := ReadAll(r', sizes[1..]);
      (bytes + more, r'')
  }

  // ----- the filter -----

  function Expected(declared: int): nat {
    if declared > 0 then declared else 0
  }

  /** The verdicts that a stream allows.  Only a truncated stream of exactly the declared length leaves a choice. */
  predicate Allowed(data: Text, end: End, declared: int, v: Verdict) {
    if |data| > Expected(declared) then v == TooLong
    else if |data| < Expected(declared) then v == if end.Eof? then TooShort else Broken(end)
    else (v == Clean && !end.Failure?) || (v == Broken(end) && !end.Eof?)
  }

  /** The reader after `handed` of the octets `data` have gone out. */
  ghost predicate Midway(r: Reader, data: Text, end: End, declared: int, handed: Text) {
    && r.inner.end == end && handed <= data && |handed| <= Expected(declared)
    && r.remaining == declared - |handed|
    && (r.err.None? ==> data == handed + r.inner.left)
    && (r.err.Some? ==> Allowed(data, end, declared, r.err.value) && handed == data[..Min(|data|, Expected(declared))])
    && (r.err == Some(Clean) ==> handed == data)
  }

  lemma {:induction false} FinishIsAllowed(x: Inner)
    ensures var (v, y) := FinishOf(x);
            y.end == x.end && if x.left != [] then v == TooLong else v == if x.end.Failure? then Broken(x.end) else Clean
    decreases |x.plan|
  {
    if Delivered(x, 1) == 0 && !ReportsEnd(x, 1) && x.plan != [] {
      FinishIsAllowed(Tail(x, 1));
    }
  }

  lemma ReadKeepsMidway(r: Reader, len: nat, data: Text, end: End, declared: int, handed: Text)
    requires Midway(r, data, end, declared, handed)
    ensures var (bytes, e, r') := ReadOnce(r, len); Midway(r', data, end, declared, handed + bytes) && e == r'.err
  {
    if r.err.Some? {
      assert handed + [] == handed;
    } else if r.remaining <= 0 {
      FinishIsAllowed(r.inner);
      assert handed + [] == handed;
    } else {
      var k := Min(len, r.remaining);
      var n := Delivered(r.inner, k);
      assert r.inner.left == r.inner.left[..n] + r.inner.left[n..];
      assert data == handed + r.inner.left[..n] + r.inner.left[n..];
    }
  }

  lemma {:induction false} ReadAllKeepsMidway(r: Reader, sizes: seq<nat>, data: Text, end: End, declared: int, handed: Text)
    requires Midway(r, data, end, declared, handed)
    ensures var (bytes, r') := ReadAll(r, sizes); Midway(r', data, end, declared, handed + bytes)
    decreases |sizes|
  {
    if sizes == [] {
      assert handed + [] == handed;
    } else {
      var (bytes, _, r') := ReadOnce(r, sizes[0]);
      ReadKeepsMidway(r, sizes[0], data, end, declared, handed);
      ReadAllKeepsMidway(r', sizes[1..], data, end, declared, handed + bytes);
      Glue(handed, bytes, ReadAll(r', sizes[1..]).0);
    }
  }

  /** Exact length: whatever the inner reads and the buffers look like, the octets handed out are a prefix of the
      decoded data, never more than declared; a clean end means exactly the declared number and nothing after them;
      and every other verdict is the one the stream deserves. */
  lemma ExactLength(data: Text, end: End, plan: seq<Hint>, declared: int, sizes: seq<nat>)
    ensures var (handed, r) := ReadAll(NewReader(Inner(data, end, plan), declared), sizes);
            && handed <= data && |handed| <= Expected(declared)
            && (r.err == Some(Clean) ==> handed == data && |data| == Expected(declared) && !end.Failure?)
            && (r.err.Some? ==>
                  && handed == data[..if |data| <= declared then |data| else if declared > 0 then declared else 0]
                  && (|data| > declared && data != [] ==> r.err.value == TooLong)
                  && (|data| < declared ==> r.err.value == if end.Eof? then TooShort else Broken(end))
                  && (|data| == declared || (data == [] && declared <= 0) ==>
                        (r.err.value == Clean && !end.Failure?) || (r.err.value == Broken(end) && !end.Eof?)))
  {
    var r := NewReader(Inner(data, end, plan), declared);
    assert Midway(r, data, end, declared, []);
    ReadAllKeepsMidway(r, sizes, data, end, declared, []);
    var (handed, r') := ReadAll(r, sizes);
    assert [] + handed == handed;
  }

  /** The terminal result repeats, with no octets. */
  lemma {:induction false} TerminalResultRepeats(r: Reader, sizes: seq<nat>)
    requires r.err.Some?
    ensures ReadAll(r, sizes) == ([], r)
    ensures forall len: nat :: ReadOnce(r, len) == ([], r.err, r)
    decreases |sizes|
  {
    var nothing: Text := [];
    assert nothing + nothing == nothing;
    if sizes != [] { TerminalResultRepeats(r, sizes[1..]); }
  }

  // ----- the reader comes to an end -----

  function Effort(r: Reader): nat {
    if r.err.Some? then 0 else |r.inner.left| + |r.inner.plan| + 1
  }

  lemma ReadMakesProgress(r: Reader, len: nat)
    requires len > 0 && r.err.None?
    ensures Effort(ReadOnce(r, len).2) < Effort(r)
  {
  }

  lemma {:induction false} EnoughReadsFinish(r: Reader, sizes: seq<nat>)
    requires |sizes| >= Effort(r) && forall i :: 0 <= i < |sizes| ==> sizes[i] > 0
    ensures ReadAll(r, sizes).1.err.Some?
    decreases |sizes|
  {
    if r.err.Some? {
      TerminalResultRepeats(r, sizes);
    } else {
      ReadMakesProgress(r, sizes[0]);
      EnoughReadsFinish(ReadOnce(r, sizes[0]).2, sizes[1..]);
    }
  }

  /** A well-formed stream of the declared length is handed out completely and ends cleanly; any other ends with
      ErrChunkedDecode.  Both within |data| + |plan| + 1 reads into non-empty buffers. */
  lemma StreamIsDeliveredExactlyWhenDeclared(data: Text, plan: seq<Hint>, declared: int, sizes: seq<nat>)
    requires |sizes| > |data| + |plan| && forall i :: 0 <= i < |sizes| ==> sizes[i] > 0
    ensures var (handed, r) := ReadAll(NewReader(Inner(data, Eof, plan), declared), sizes);
            r.err.Some? && (r.err == Some(Clean) <==> |data| == Expected(declared)) && (r.err == Some(Clean) ==> handed == data)
  {
    EnoughReadsFinish(NewReader(Inner(data, Eof, plan), declared), sizes);
    ExactLength(data, Eof, plan, declared, sizes);
  }

  // ----- a truncated stream -----

  /** With `left` octets still to come into buffers of the given sizes, no read reports the end together with the
      last of them. */
  predicate Late(left: nat, plan: seq<Hint>, sizes: seq<nat>)
    decreases |sizes|
  {
    if left == 0 || sizes == [] then true
    else if plan == [] then Late(if sizes[0] < left then left - sizes[0] else 0, [], sizes[1..])
    else
      var n := Min(Min(plan[0].size, sizes[0]), left);
      !(n == left && plan[0].eager) && Late(left - n, plan[1..], sizes[1..])
  }

  /** One read before the last octets: what remains, and whether the truncation is reported with them. */
  lemma ReadBeforeTheEnd(r: Reader, len: nat)
    requires r.err.None? && r.remaining > 0 && |r.inner.left| == r.remaining && r.inner.end == UnexpectedEof
    ensures var (_, _, r') := ReadOnce(r, len);
            var n := Delivered(r.inner, Min(len, r.remaining));
            && r'.remaining == |r'.inner.left| == |r.inner.left| - n && r'.inner.end == UnexpectedEof
            && r'.inner.plan == (if r.inner.plan == [] then [] else r.inner.plan[1..])
            && r'.err == (if n == |r.inner.left| && r.inner.plan != [] && r.inner.plan[0].eager then Some(Broken(UnexpectedEof)) else None)
  {
  }

  /** A clean end in finish, once nothing is left. */
  lemma ReadAtTheEnd(r: Reader, sizes: seq<nat>)
    requires r.err.None? && r.remaining <= 0 && r.inner.left == [] && r.inner.end == UnexpectedEof && sizes != []
    ensures ReadAll(r, sizes).1.err == Some(Clean)
  {
    FinishIsAllowed(r.inner);
    TerminalResultRepeats(ReadOnce(r, sizes[0]).2, sizes[1..]);
  }

  lemma {:induction false} CleanExactlyWhenLate(r: Reader, sizes: seq<nat>)
    requires r.err.None? && |r.inner.left| == Expected(r.remaining) && r.inner.end == UnexpectedEof
    requires |sizes| >= Effort(r) && forall i :: 0 <= i < |sizes| ==> sizes[i] > 0
    ensures ReadAll(r, sizes).1.err == Some(Clean) <==> Late(|r.inner.left|, r.inner.plan, sizes)
    decreases |sizes|
  {
    if r.remaining <= 0 {
      ReadAtTheEnd(r, sizes);
    } else {
      var r' := ReadOnce(r, sizes[0]).2;
      ReadBeforeTheEnd(r, sizes[0]);
      ReadMakesProgress(r, sizes[0]);
      if r'.err.Some? {
        TerminalResultRepeats(r', sizes[1..]);
      } else {
        CleanExactlyWhenLate(r', sizes[1..]);
      }
    }
  }

  /** Whether a truncated stream passes for complete, for every declared length, every way the inner reader delivers
      and every sequence of enough non-empty buffers: it does if and only if the data has the declared length and no
      read reports the truncation together with the last octets. */
  lemma TruncationPassesExactlyWhenLate(data: Text, plan: seq<Hint>, declared: int, sizes: seq<nat>)
    requires |sizes| > |data| + |plan| && forall i :: 0 <= i < |sizes| ==> sizes[i] > 0
    ensures ReadAll(NewReader(Inner(data, UnexpectedEof, plan), declared), sizes).1.err == Some(Clean) <==>
            |data| == Expected(declared) && Late(|data|, plan, sizes)
  {
    var r := NewReader(Inner(data, UnexpectedEof, plan), declared);
    if |data| == Expected(declared) {
      CleanExactlyWhenLate(r, sizes);
    } else {
      ExactLength(data, UnexpectedEof, plan, declared, sizes);
    }
  }

  /** Both do occur. */
  lemma TruncationGoesBothWays(data: Text)
    requires data != []
    ensures var late := ReadAll(NewReader(Inner(data, UnexpectedEof, []), |data|), [|data|, 1]);
            late.0 == data && late.1.err == Some(Clean)
    ensures var early := ReadAll(NewReader(Inner(data, UnexpectedEof, [Hint(|data|, true)]), |data|), [|data|, 1]);
            early.0 == data && early.1.err == Some(Broken(UnexpectedEof))
  {
    var late, early := NewReader(Inner(data, UnexpectedEof, []), |data|), NewReader(Inner(data, UnexpectedEof, [Hint(|data|, true)]), |data|);
    TwoReads(late, |data|, 1);
    TwoReads(early, |data|, 1);
    FinishIsAllowed(ReadOnce(late, |data|).2.inner);
    assert data[..|data|] == data && data + [] == data;
  }

  lemma TwoReads(r: Reader, a: nat, b: nat)
    ensures var (x, _, r') := ReadOnce(r, a);
            var (y, _, r'') := ReadOnce(r', b);
            ReadAll(r, [a, b]) == (x + y, r'')
  {
    assert [a, b][1..] == [b] && [b][1..] == [];
    var r' := ReadOnce(r, a).2;
    var (y, _, r'') := ReadOnce(r', b);
    assert ReadAll(r'', []) == ([], r'');
    assert y + [] == y;
    assert ReadAll(r', [b]) == (y, r'');
  }

  // ----- the objects -----

  class ChunkStream {
    var left: Text
    var end: End
    var plan: seq<Hint>

    ghost function View(): Inner
      reads this
    {
      Inner(left, end, plan)
    }

    constructor (data: Text, end: End, plan: seq<Hint>)
      ensures View() == Inner(data, end, plan)
    {
      left, this.end, this.plan := data, end, plan;
    }

    method Read(len: nat) returns (bytes: Text, e: Option<End>)
      modifies this
      ensures bytes == old(left)[..Delivered(old(View()), len)] && View() == Tail(old(View()), len)
      ensures e == if ReportsEnd(old(View()), len) then Some(end) else None
    {
      var n := if plan != [] && plan[0].size < len then plan[0].size else len;
      if |left| < n { n := |left|; }
      e := if n == |left| && (if plan == [] then left == [] else plan[0].eager) then Some(end) else None;
      bytes, left, plan := left[..n], left[n..], if plan == [] then [] else plan[1..];
    }
  }

  class AwsChunkedReader {
    const chunks: ChunkStream
    var remaining: int
    var err: Option<Verdict>

    ghost function View(): Reader
      reads this, chunks
    {
      Reader(chunks.View(), remaining, err)
    }

    constructor (chunks: ChunkStream, decodedLength: int)
      ensures this.chunks == chunks && View() == NewReader(chunks.View(), decodedLength)
    {
      this.chunks, remaining, err := chunks, decodedLength, None;
    }

    method Read(len: nat) returns (bytes: Text, e: Option<Verdict>)
      modifies this, chunks
      ensures (bytes, e, View()) == ReadOnce(old(View()), len)
    {
      if err.Some? { return [], err; }
      if remaining <= 0 {
        var v := Finish();
        err := Some(v);
        return [], err;
      }
      var cause;
      bytes, cause := chunks.Read(if len > remaining then remaining else len);
      remaining := remaining - |bytes|;
      if cause == Some(Eof) {
        err := Some(if remaining > 0 then TooShort else Clean);
      } else if cause.Some? {
        err := Some(Broken(cause.value));
      }
      e := err;
    }

    /** io.ReadFull into one octet of scratch space. */
    method Finish() returns (v: Verdict)
      modifies chunks
      ensures (v, chunks.View()) == FinishOf(old(chunks.View()))
    {
      var bytes: Text, cause: Option<End> := [], None;
      ghost var was := chunks.View();
      bytes, cause := chunks.Read(1);
      while bytes == [] && cause.None?
        invariant chunks.View() == Tail(was, 1) && |bytes| == Delivered(was, 1)
        invariant cause == if ReportsEnd(was, 1) then Some(was.end) else None
        invariant FinishOf(was) == FinishOf(old(chunks.View()))
        decreases |was.plan|
      {
        was := chunks.View();
        bytes, cause := chunks.Read(1);
      }
      v := if bytes != [] then TooLong else match cause.value case Failure(_) => Broken(cause.value) case _ => Clean;
    }
  }
}
