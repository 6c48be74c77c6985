/** What a canonical query says: the decoded keys and values of the raw query, each as often, in order
    (internal/s3api/sigv4.go, sigv4CanonicalQuery). */
module QueryPairs {
  import opened Octets
  import opened Strings
  import opened UriEncoding
  import Q = CanonicalQuery

  /** The key and value of one part, percent-decoded. */
  function Says(part: Text): (Text, Text) {
    (Decode(Cut(part, '=').0), Decode(Cut(part, '=').1))
  }

  function SaysAll(parts: seq<Text>): seq<(Text, Text)> {
    if parts == [] then [] else [Says(parts[0])] + SaysAll(parts[1..])
  }

  /** The parts that are signed: of a presigned query all but the signature. */
  function Signed(parts: seq<Text>, presigned: bool): seq<Text> {
    if parts == [] then []
    else (if presigned && Says(parts[0]).0 == "X-Amz-Signature" then [] else [parts[0]]) + Signed(parts[1..], presigned)
  }

  /** What a raw query says. */
  function Meaning(raw: Text, presigned: bool): seq<(Text, Text)> {
    if raw == [] then [] else SaysAll(Signed(Split(raw, '&'), presigned))
  }

  // ----- the signature is recognised by its decoded name -----

  /** A strict reading of a name that needs no escapes is a lenient one. */
  lemma {:induction false} UnescapedIs(s: Text, t: Text)
    requires forall c :: c in t ==> IsUnreserved(c)
    ensures Q.QueryUnescape(s) == Some(t) <==> Decode(s) == t
  {
    if s != [] {
      var n := if StartsEscaped(s) then 3 else 1;
      if t == [] {
        assert Decode(s) != [];
      } else {
        assert t == [t[0]] + t[1..] && t[0] in t;
        UnescapedIs(s[n..], t[1..]);
        assert Decode(s)[1..] == Decode(s[n..]);
        assert Q.QueryUnescape(s).Some? ==> Q.QueryUnescape(s).value[1..] == Q.QueryUnescape(s[n..]).value;
      }
    }
  }

  lemma SignatureIs(part: Text)
    ensures Q.IsSignature(part) <==> Says(part).0 == "X-Amz-Signature"
  {
    UnescapedIs(Cut(part, '=').0, Q.SIGNATURE);
  }

  // ----- decoding the encoded pairs -----

  function DecodePairs(ps: seq<Q.Pair>): seq<(Text, Text)> {
    if ps == [] then [] else [(Decode(ps[0].key), Decode(ps[0].value))] + DecodePairs(ps[1..])
  }

  lemma {:induction false} EncodedSays(parts: seq<Text>, presigned: bool)
    ensures DecodePairs(Q.EncodeParts(parts, presigned)) == SaysAll(Signed(parts, presigned))
  {
    if parts != [] {
      EncodedSays(parts[1..], presigned);
      SignatureIs(parts[0]);
      EncodePreservesMeaning(Cut(parts[0], '=').0, false);
      EncodePreservesMeaning(Cut(parts[0], '=').1, false);
      var ps, qs := Q.EncodeParts(parts[1..], presigned), Signed(parts[1..], presigned);
      assert ([Q.EncodePart(parts[0])] + ps)[1..] == ps && ([parts[0]] + qs)[1..] == qs && [] + qs == qs;
    }
  }

  lemma {:induction false} DecodeAppend(a: seq<Q.Pair>, b: seq<Q.Pair>)
    ensures DecodePairs(a + b) == DecodePairs(a) + DecodePairs(b)
  {
    if a == [] {
      assert a + b == b;
    } else {
      DecodeAppend(a[1..], b);
      assert (a + b)[1..] == a[1..] + b && (a + b)[0] == a[0];
    }
  }

  lemma DecodeTakenOut(a: seq<Q.Pair>, x: Q.Pair, b: seq<Q.Pair>)
    ensures multiset(DecodePairs(a + [x] + b)) == multiset(DecodePairs(a + b)) + multiset(DecodePairs([x]))
  {
    DecodeAppend(a + [x], b);
    DecodeAppend(a, [x]);
    DecodeAppend(a, b);
  }

  lemma TakeOut(qs: seq<Q.Pair>, x: Q.Pair) returns (a: seq<Q.Pair>, b: seq<Q.Pair>)
    requires x in qs
    ensures qs == a + [x] + b && multiset(a + b) == multiset(qs) - multiset{x}
  {
    var i :| 0 <= i < |qs| && qs[i] == x;
    a, b := qs[..i], qs[i + 1..];
  }

  lemma {:induction false} DecodeReordered(ps: seq<Q.Pair>, qs: seq<Q.Pair>)
    requires multiset(ps) == multiset(qs)
    ensures multiset(DecodePairs(ps)) == multiset(DecodePairs(qs))
  {
    if ps == [] {
      assert |multiset(qs)| == 0;
    } else {
      assert ps[0] in multiset(qs);
      var a, b := TakeOut(qs, ps[0]);
      Q.WithoutHead(ps);
      assert ps == [] + [ps[0]] + ps[1..] && [] + ps[1..] == ps[1..];
      DecodeReordered(ps[1..], a + b);
      DecodeTakenOut([], ps[0], ps[1..]);
      DecodeTakenOut(a, ps[0], b);
    }
  }

  // ----- reading the canonical query -----

  lemma {:induction false} RenderedSays(ps: seq<Q.Pair>)
    requires Q.Encoded(ps)
    ensures SaysAll(Q.RenderAll(ps)) == DecodePairs(ps)
  {
    if ps != [] {
      CutOfGlued(ps[0].key, ps[0].value, '=');
      RenderedSays(ps[1..]);
      assert Q.RenderAll(ps)[1..] == Q.RenderAll(ps[1..]);
    }
  }

  lemma RenderedParts(ps: seq<Q.Pair>)
    requires Q.Encoded(ps) && ps != []
    ensures Split(Join(Q.RenderAll(ps), '&'), '&') == Q.RenderAll(ps)
  {
    SplitOfJoin(Q.RenderAll(ps), '&');
  }

  lemma NormalPairs(parts: seq<Text>, presigned: bool, p: Q.Pair)
    requires p in Q.EncodeParts(parts, presigned)
    ensures Normal(p.key, false) && Normal(p.value, false)
    decreases |parts|
  {
    if p in Q.EncodeParts(parts[1..], presigned) {
      NormalPairs(parts[1..], presigned, p);
    } else {
      EncodeIsNormal(Cut(parts[0], '=').0, false);
      EncodeIsNormal(Cut(parts[0], '=').1, false);
    }
  }

  /** The sorted pairs behind a canonical query. */
  lemma SortedPairs(raw: Text, presigned: bool) returns (ps: seq<Q.Pair>)
    requires raw != []
    ensures Q.Canonical(raw, presigned) == Join(Q.RenderAll(ps), '&') && Q.Encoded(ps) && Q.Sorted(ps)
    ensures multiset(DecodePairs(ps)) == multiset(Meaning(raw, presigned))
    ensures forall i :: 0 <= i < |ps| ==> Normal(ps[i].key, false) && Normal(ps[i].value, false)
  {
    var qs := Q.EncodeParts(Split(raw, '&'), presigned);
    ps := Q.Sort(qs);
    Q.SortSorts(qs);
    Q.EncodedParts(Split(raw, '&'), presigned);
    Q.EncodedSort(qs);
    DecodeReordered(ps, qs);
    EncodedSays(Split(raw, '&'), presigned);
    forall i | 0 <= i < |ps| ensures Normal(ps[i].key, false) && Normal(ps[i].value, false) {
      assert ps[i] in multiset(ps);
      NormalPairs(Split(raw, '&'), presigned, ps[i]);
    }
  }

  /** `a` comes before `b`, or is the same: by key, then by value. */
  ghost predicate PairsInOrder(a: (Text, Text), b: (Text, Text)) {
    if a.0 == b.0 then InOrder(a.1, b.1) else InOrder(a.0, b.0)
  }

  lemma SortedIsInOrder(p: Q.Pair, q: Q.Pair)
    requires !Q.PairLess(q, p)
    ensures PairsInOrder((p.key, p.value), (q.key, q.value))
  {
    Total(p.key, q.key);
    Total(p.value, q.value);
    LessEqIs(p.key, q.key);
    LessEqIs(p.value, q.value);
  }

  /** Read back, a canonical query consists of keys and values in normal form, in ascending order of their octets, and they
      decode to exactly the keys and values of the raw query, each as often, less the signature of a presigned one. */
  lemma CanonicalSays(raw: Text, presigned: bool)
    ensures Q.Canonical(raw, presigned) == [] <==> Meaning(raw, presigned) == []
    ensures Q.Canonical(raw, presigned) != [] ==>
              var parts := Split(Q.Canonical(raw, presigned), '&');
              && multiset(SaysAll(parts)) == multiset(Meaning(raw, presigned))
              && (forall i :: 0 <= i < |parts| ==>
                    '=' in parts[i] && Normal(Cut(parts[i], '=').0, false) && Normal(Cut(parts[i], '=').1, false))
              && (forall i, j :: 0 <= i < j < |parts| ==> PairsInOrder(Cut(parts[i], '='), Cut(parts[j], '=')))
  {
    if raw != [] {
      var ps := SortedPairs(raw, presigned);
      Q.NonEmpty(ps);
      SameEmptiness(ps, Meaning(raw, presigned));
      if ps != [] {
        RenderedParts(ps);
        RenderedSays(ps);
        var parts := Q.RenderAll(ps);
        forall i | 0 <= i < |parts| ensures Cut(parts[i], '=') == (ps[i].key, ps[i].value) && '=' in parts[i] {
          CutOfGlued(ps[i].key, ps[i].value, '=');
        }
        forall i, j | 0 <= i < j < |parts| ensures PairsInOrder(Cut(parts[i], '='), Cut(parts[j], '=')) { SortedIsInOrder(ps[i], ps[j]); }
      }
    }
  }

  lemma SameEmptiness(ps: seq<Q.Pair>, ms: seq<(Text, Text)>)
    requires multiset(DecodePairs(ps)) == multiset(ms)
    ensures ps == [] <==> ms == []
  {
    assert |multiset(DecodePairs(ps))| == |DecodePairs(ps)| && |multiset(ms)| == |ms|;
  }

  /** So two raw queries that decode to different keys or values never share a canonical query: the signature covers them
      all. */
  lemma DifferentMeaningsDiffer(raw: Text, raw': Text, presigned: bool)
    requires multiset(Meaning(raw, presigned)) != multiset(Meaning(raw', presigned))
    ensures Q.Canonical(raw, presigned) != Q.Canonical(raw', presigned)
  {
    CanonicalSays(raw, presigned);
    CanonicalSays(raw', presigned);
  }
}
