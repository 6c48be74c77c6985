/** The canonical query string of AWS Signature Version 4 (internal/s3api/sigv4.go, sigv4CanonicalQuery). */
module CanonicalQuery {
  import opened Octets
  import opened Strings
  import opened UriEncoding

  const SIGNATURE: Text := "X-Amz-Signature"

  /** url.QueryUnescape: strict about escapes, and a plus sign is a space. */
  function QueryUnescape(s: Text): Option<Text> {
    if s == [] then Some([])
    else if s[0] == '%' then
      if !StartsEscaped(s) then None
      else match QueryUnescape(s[3..])
           case None => None
           case Some(t) => Some([(HexValue(s[1]) * 16 + HexValue(s[2])) as char] + t)
    else
      match QueryUnescape(s[1..])
      case None => None
      case Some(t) => Some([if s[0] == '+' then ' ' else s[0]] + t)
  }

  datatype Pair = Pair(key: Text, value: Text)

  predicate IsSignature(part: Text) {
    QueryUnescape(Cut(part, '=').0) == Some(SIGNATURE)
  }

  function EncodePart(part: Text): Pair {
    Pair(Encode(Cut(part, '=').0, false), Encode(Cut(part, '=').1, false))
  }

  function EncodeParts(parts: seq<Text>, presigned: bool): seq<Pair> {
    if parts == [] then []
    else
      var rest := EncodeParts(parts[1..], presigned);
      if presigned && IsSignature(parts[0]) then rest else [EncodePart(parts[0])] + rest
  }

  predicate PairLess(p: Pair, q: Pair) {
    if p.key == q.key then p.value != q.value && LessEq(p.value, q.value) else LessEq(p.key, q.key)
  }

  /** Stable insertion: after everything that is not greater. */
  function Insert(p: Pair, ps: seq<Pair>): seq<Pair> {
    if ps == [] || PairLess(p, ps[0]) then [p] + ps else [ps[0]] + Insert(p, ps[1..])
  }

  function Sort(ps: seq<Pair>): seq<Pair> {
    if ps == [] then [] else Insert(ps[|ps| - 1], Sort(ps[..|ps| - 1]))
  }

  function Render(p: Pair): Text {
    p.key + ['='] + p.value
  }

  function RenderAll(ps: seq<Pair>): (parts: seq<Text>)
    ensures |parts| == |ps| && forall i :: 0 <= i < |ps| ==> parts[i] == Render(ps[i])
  {
    if ps == [] then [] else [Render(ps[0])] + RenderAll(ps[1..])
  }

  function Canonical(rawQuery: Text, presigned: bool): Text {
    if rawQuery == [] then []
    else Join(RenderAll(Sort(EncodeParts(Split(rawQuery, '&'), presigned))), '&')
  }

  // ----- sorting -----

  lemma PairTotal(p: Pair, q: Pair)
    ensures !PairLess(p, q) ==> p == q || PairLess(q, p)
    ensures !(PairLess(p, q) && PairLess(q, p))
  {
    Total(p.key, q.key);
    Total(p.value, q.value);
  }

  lemma PairTransitive(p: Pair, q: Pair, r: Pair)
    requires !PairLess(q, p) && !PairLess(r, q)
    ensures !PairLess(r, p)
  {
    Total(p.key, q.key);
    Total(q.key, r.key);
    Total(p.key, r.key);
    Total(p.value, q.value);
    Total(q.value, r.value);
    Total(p.value, r.value);
    if LessEq(p.key, q.key) && LessEq(q.key, r.key) { Transitive(p.key, q.key, r.key); }
    if LessEq(p.value, q.value) && LessEq(q.value, r.value) { Transitive(p.value, q.value, r.value); }
  }

  predicate Sorted(ps: seq<Pair>) {
    forall i, j :: 0 <= i < j < |ps| ==> !PairLess(ps[j], ps[i])
  }

  lemma {:induction false} InsertSorts(p: Pair, ps: seq<Pair>)
    requires Sorted(ps)
    ensures multiset(Insert(p, ps)) == multiset(ps) + multiset{p}
    ensures Sorted(Insert(p, ps))
  {
    if ps == [] {
    } else if PairLess(p, ps[0]) {
      forall j | 0 <= j < |ps| ensures !PairLess(ps[j], p) {
        PairTotal(p, ps[0]);
        if j > 0 { PairTransitive(p, ps[0], ps[j]); }
      }
    } else {
      InsertSorts(p, ps[1..]);
      var rest := Insert(p, ps[1..]);
      assert ps == [ps[0]] + ps[1..];
      forall j | 0 <= j < |rest| ensures !PairLess(rest[j], ps[0]) {
        assert rest[j] in multiset(rest);
        assert rest[j] == p || rest[j] in ps[1..];
      }
    }
  }

  lemma {:induction false} SortSorts(ps: seq<Pair>)
    ensures multiset(Sort(ps)) == multiset(ps) && Sorted(Sort(ps))
  {
    if ps != [] {
      var front, last := ps[..|ps| - 1], ps[|ps| - 1];
      SortSorts(front);
      InsertSorts(last, Sort(front));
      assert ps == front + [last];
      assert multiset(ps) == multiset(front) + multiset{last};
    }
  }

  lemma SameLeast(ps: seq<Pair>, qs: seq<Pair>)
    requires multiset(ps) == multiset(qs) && Sorted(ps) && Sorted(qs) && ps != [] && qs != []
    ensures ps[0] == qs[0]
  {
    assert ps[0] in multiset(qs) && qs[0] in multiset(ps);
    var i :| 0 <= i < |qs| && qs[i] == ps[0];
    var j :| 0 <= j < |ps| && ps[j] == qs[0];
    PairTotal(ps[0], qs[0]);
  }

  lemma WithoutHead(ps: seq<Pair>)
    requires ps != []
    ensures multiset(ps[1..]) == multiset(ps) - multiset{ps[0]} && ps == [ps[0]] + ps[1..]
  {
    assert ps == [ps[0]] + ps[1..];
  }

  /** There is one way only to sort: the order is total and pairs it cannot tell apart are equal. */
  lemma {:induction false} SortedIsUnique(ps: seq<Pair>, qs: seq<Pair>)
    requires multiset(ps) == multiset(qs) && Sorted(ps) && Sorted(qs)
    ensures ps == qs
  {
    assert |multiset(ps)| == |ps| && |multiset(qs)| == |qs|;
    if ps != [] {
      SameLeast(ps, qs);
      WithoutHead(ps);
      WithoutHead(qs);
      SortedIsUnique(ps[1..], qs[1..]);
    }
  }

  lemma SortDecidesMultiset(ps: seq<Pair>, qs: seq<Pair>)
    ensures Sort(ps) == Sort(qs) <==> multiset(ps) == multiset(qs)
  {
    SortSorts(ps);
    SortSorts(qs);
    if multiset(ps) == multiset(qs) { SortedIsUnique(Sort(ps), Sort(qs)); }
  }

  // ----- order of the parts -----

  lemma {:induction false} EncodePartsAppend(a: seq<Text>, b: seq<Text>, presigned: bool)
    ensures EncodeParts(a + b, presigned) == EncodeParts(a, presigned) + EncodeParts(b, presigned)
  {
    if a == [] {
      assert a + b == b;
    } else {
      EncodePartsAppend(a[1..], b, presigned);
      assert (a + b)[1..] == a[1..] + b && (a + b)[0] == a[0];
    }
  }

  lemma EncodeOne(part: Text, presigned: bool)
    ensures EncodeParts([part], presigned) == if presigned && IsSignature(part) then [] else [EncodePart(part)]
  {
    var one := [part];
    assert one[1..] == [];
  }

  lemma TakeOut(qs: seq<Text>, x: Text) returns (a: seq<Text>, b: seq<Text>)
    requires x in qs
    ensures qs == a + [x] + b && multiset(a + b) == multiset(qs) - multiset{x}
  {
    var i :| 0 <= i < |qs| && qs[i] == x;
    a, b := qs[..i], qs[i + 1..];
  }

  lemma EncodeTakenOut(a: seq<Text>, x: Text, b: seq<Text>, presigned: bool)
    ensures multiset(EncodeParts(a + [x] + b, presigned)) == multiset(EncodeParts(a + b, presigned)) + multiset(EncodeParts([x], presigned))
  {
    EncodePartsAppend(a + [x], b, presigned);
    EncodePartsAppend(a, [x], presigned);
    EncodePartsAppend(a, b, presigned);
  }

  lemma {:induction false} EncodePartsReordered(ps: seq<Text>, qs: seq<Text>, presigned: bool)
    requires multiset(ps) == multiset(qs)
    ensures multiset(EncodeParts(ps, presigned)) == multiset(EncodeParts(qs, presigned))
  {
    if ps == [] {
      assert |multiset(qs)| == 0;
    } else {
      assert ps[0] in multiset(qs);
      var a, b := TakeOut(qs, ps[0]);
      assert ps == [] + [ps[0]] + ps[1..] && [] + ps[1..] == ps[1..];
      assert multiset(ps[1..]) == multiset(ps) - multiset{ps[0]};
      EncodePartsReordered(ps[1..], a + b, presigned);
      EncodeTakenOut([], ps[0], ps[1..], presigned);
      EncodeTakenOut(a, ps[0], b, presigned);
    }
  }

  /** The canonical query does not depend on the order of the parts of the raw query. */
  lemma CanonicalIsOrderFree(raw: Text, raw': Text, presigned: bool)
    requires multiset(Split(raw, '&')) == multiset(Split(raw', '&'))
    ensures Canonical(raw, presigned) == Canonical(raw', presigned)
  {
    EncodePartsReordered(Split(raw, '&'), Split(raw', '&'), presigned);
    SortDecidesMultiset(EncodeParts(Split(raw, '&'), presigned), EncodeParts(Split(raw', '&'), presigned));
    if raw == [] { OnlyEmptySplits(raw'); }
    if raw' == [] { OnlyEmptySplits(raw); }
  }

  lemma OnlyEmptySplits(raw: Text)
    requires multiset(Split(raw, '&')) == multiset(Split([], '&'))
    ensures raw == []
  {
    var parts := Split(raw, '&');
    assert multiset(parts) == multiset{[]};
    assert |parts| == |multiset(parts)| == 1 && parts[0] in multiset(parts);
    JoinOfSplit(raw, '&');
  }

  // ----- the signature of a presigned request -----

  /** Appending a signature to a non-empty presigned query does not change its canonical form: what is signed and
      what is sent agree. */
  lemma SignatureIsLeftOut(raw: Text, part: Text)
    requires raw != [] && '&' !in part && IsSignature(part)
    ensures Canonical(raw + ['&'] + part, true) == Canonical(raw, true)
  {
    SplitAppend(raw, part, '&');
    SplitOne(part, '&');
    EncodePartsAppend(Split(raw, '&'), [part], true);
    EncodeOne(part, true);
    assert EncodeParts(Split(raw, '&'), true) + [] == EncodeParts(Split(raw, '&'), true);
  }

  /** The part that a presigned URL carries is one, whatever the signature. */
  lemma SignaturePart(signature: Text)
    ensures IsSignature(SIGNATURE + ['='] + signature)
  {
    CutOfGlued(SIGNATURE, signature, '=');
    Unescaped(SIGNATURE);
  }

  lemma {:induction false} Unescaped(s: Text)
    requires forall c :: c in s ==> IsUnreserved(c)
    ensures QueryUnescape(s) == Some(s)
  {
    if s != [] {
      assert s[0] in s;
      Unescaped(s[1..]);
      assert s == [s[0]] + s[1..];
    }
  }

  /** With an empty query the appended separator leaves an empty part behind, and that is not left out. */
  lemma SignatureAfterEmptyQuery(part: Text)
    requires '&' !in part && IsSignature(part)
    ensures Canonical([] + ['&'] + part, true) == "=" != Canonical([], true)
  {
    SplitAppend([], part, '&');
    SplitOne(part, '&');
    var blank: seq<Text> := [[]];
    EncodePartsAppend(blank, [part], true);
    EncodeOne(part, true);
    EncodeOne([], true);
    var ps := [Pair([], [])];
    assert Sort(ps) == ps by { assert ps[..0] == []; }
    assert ps + [] == ps;
  }

  /** So what was signed and what is sent agree exactly for a non-empty query. */
  lemma SignatureIsLeftOutExactlyWhen(raw: Text, part: Text)
    requires '&' !in part && IsSignature(part)
    ensures Canonical(raw + ['&'] + part, true) == Canonical(raw, true) <==> raw != []
  {
    if raw == [] { SignatureAfterEmptyQuery(part); } else { SignatureIsLeftOut(raw, part); }
  }

  /** Put into an empty query without a separator, the signature is left out there too. */
  lemma SignatureAlone(part: Text)
    requires part != [] && '&' !in part && IsSignature(part)
    ensures Canonical(part, true) == Canonical([], true) == []
  {
    SplitOne(part, '&');
    EncodeOne(part, true);
  }

  // ----- the canonical query says which pairs there are -----

  lemma NoSeparators(s: Text)
    ensures '&' !in Encode(s, false) && '=' !in Encode(s, false)
  {
    EncodeIsNormal(s, false);
    NormalOctets(Encode(s, false), false);
  }

  predicate Encoded(ps: seq<Pair>) {
    forall i :: 0 <= i < |ps| ==> '&' !in ps[i].key && '&' !in ps[i].value && '=' !in ps[i].key
  }

  lemma {:induction false} EncodedParts(parts: seq<Text>, presigned: bool)
    ensures Encoded(EncodeParts(parts, presigned))
  {
    if parts != [] {
      EncodedParts(parts[1..], presigned);
      NoSeparators(Cut(parts[0], '=').0);
      NoSeparators(Cut(parts[0], '=').1);
    }
  }

  lemma EncodedSort(ps: seq<Pair>)
    requires Encoded(ps)
    ensures Encoded(Sort(ps))
  {
    SortSorts(ps);
    forall i | 0 <= i < |Sort(ps)| ensures '&' !in Sort(ps)[i].key && '&' !in Sort(ps)[i].value && '=' !in Sort(ps)[i].key {
      assert Sort(ps)[i] in multiset(Sort(ps));
      assert Sort(ps)[i] in ps;
    }
  }

  lemma RenderIsInjective(ps: seq<Pair>, qs: seq<Pair>)
    requires Encoded(ps) && Encoded(qs) && Join(RenderAll(ps), '&') == Join(RenderAll(qs), '&')
    ensures ps == qs
  {
    if ps == [] {
      NonEmpty(qs);
    } else if qs == [] {
      NonEmpty(ps);
    } else {
      SplitOfJoin(RenderAll(ps), '&');
      SplitOfJoin(RenderAll(qs), '&');
      forall i | 0 <= i < |ps| ensures ps[i] == qs[i] {
        assert RenderAll(ps)[i] == RenderAll(qs)[i];
        CutOfGlued(ps[i].key, ps[i].value, '=');
        CutOfGlued(qs[i].key, qs[i].value, '=');
      }
    }
  }

  lemma NonEmpty(ps: seq<Pair>)
    ensures ps != [] ==> Join(RenderAll(ps), '&') != []
  {
    if ps != [] { assert '=' in RenderAll(ps)[0]; }
  }

  /** Two non-empty raw queries have the same canonical query exactly when they have the same encoded pairs,
      in whatever order and as often. */
  lemma CanonicalDecidesPairs(raw: Text, raw': Text, presigned: bool)
    requires raw != [] && raw' != []
    ensures Canonical(raw, presigned) == Canonical(raw', presigned) <==>
            multiset(EncodeParts(Split(raw, '&'), presigned)) == multiset(EncodeParts(Split(raw', '&'), presigned))
  {
    var ps, qs := EncodeParts(Split(raw, '&'), presigned), EncodeParts(Split(raw', '&'), presigned);
    EncodedParts(Split(raw, '&'), presigned);
    EncodedParts(Split(raw', '&'), presigned);
    EncodedSort(ps);
    EncodedSort(qs);
    SortDecidesMultiset(ps, qs);
    if Canonical(raw, presigned) == Canonical(raw', presigned) { RenderIsInjective(Sort(ps), Sort(qs)); }
  }

  // ----- as it runs -----

  /** sort.SliceStable, by insertion. */
  method SortStable(a: array<Pair>)
    modifies a
    ensures a[..] == Sort(old(a[..]))
  {
    ghost var was := a[..];
    for i := 0 to a.Length
      invariant a[..i] == Sort(was[..i]) && a[i..] == was[i..]
    {
      assert was[..i + 1][..i] == was[..i];
      SortSorts(was[..i]);
      assert |multiset(Sort(was[..i]))| == |multiset(was[..i])| == i;
      SiftDown(a, i);
    }
    assert was[..a.Length] == was && a[..a.Length] == a[..];
  }

  /** Moves a[i] down among the sorted a[..i]. */
  method SiftDown(a: array<Pair>, i: nat)
    requires i < a.Length && Sorted(a[..i])
    modifies a
    ensures a[..i + 1] == Insert(old(a[i]), old(a[..i])) && a[i + 1..] == old(a[i + 1..])
  {
    var p := a[i];
    ghost var front := a[..i];
    var k := i;
    while k > 0 && PairLess(p, a[k - 1])
      invariant 0 <= k <= i
      invariant forall j :: 0 <= j < k ==> a[j] == front[j]
      invariant forall j :: k < j <= i ==> a[j] == front[j - 1]
      invariant forall j :: k <= j < i ==> PairLess(p, front[j])
      invariant a[i + 1..] == old(a[i + 1..])
    {
      a[k] := a[k - 1];
      k := k - 1;
    }
    a[k] := p;
    InsertAt(p, front, k);
    Shifted(a[..i + 1], front, p, k);
  }

  lemma Shifted(ps: seq<Pair>, front: seq<Pair>, p: Pair, k: nat)
    requires |ps| == |front| + 1 && k <= |front| && ps[k] == p
    requires forall j :: 0 <= j < k ==> ps[j] == front[j]
    requires forall j :: k < j < |ps| ==> ps[j] == front[j - 1]
    ensures ps == front[..k] + [p] + front[k..]
  {
  }

  /** Where stable insertion puts its element. */
  lemma {:induction false} InsertAt(p: Pair, ps: seq<Pair>, k: nat)
    requires k <= |ps| && Sorted(ps)
    requires k > 0 ==> !PairLess(p, ps[k - 1])
    requires k < |ps| ==> PairLess(p, ps[k])
    ensures Insert(p, ps) == ps[..k] + [p] + ps[k..]
  {
    if k > 0 {
      if k > 1 { PairTransitive(ps[0], ps[k - 1], p); }
      InsertAt(p, ps[1..], k - 1);
      HeadBack(ps, k, p);
    }
  }

  lemma HeadBack(ps: seq<Pair>, k: nat, p: Pair)
    requires 0 < k <= |ps|
    ensures [ps[0]] + (ps[1..][..k - 1] + [p] + ps[1..][k - 1..]) == ps[..k] + [p] + ps[k..]
  {
  }

  /** sigv4CanonicalQuery. */
  method CanonicalQuery(rawQuery: Text, presigned: bool) returns (r: Text)
    ensures r == Canonical(rawQuery, presigned)
  {
    if rawQuery == [] { return []; }
    var parts := Split(rawQuery, '&');
    var encoded := EncodeAll(parts, presigned);
    var a := new Pair[|encoded|](i requires 0 <= i < |encoded| => encoded[i]);
    assert a[..] == encoded;
    SortStable(a);
    var out := RenderEach(a);
    r := Join(out, '&');
  }

  method RenderEach(a: array<Pair>) returns (out: seq<Text>)
    ensures out == RenderAll(a[..])
  {
    out := [];
    for i := 0 to a.Length
      invariant |out| == i && forall j :: 0 <= j < i ==> out[j] == Render(a[j])
    {
      out := out + [a[i].key + ['='] + a[i].value];
    }
  }

  method EncodeAll(parts: seq<Text>, presigned: bool) returns (encoded: seq<Pair>)
    ensures encoded == EncodeParts(parts, presigned)
  {
    encoded := [];
    for i := 0 to |parts|
      invariant encoded == EncodeParts(parts[..i], presigned)
    {
      var (key, value) := Cut(parts[i], '=');
      assert parts[..i + 1] == parts[..i] + [parts[i]];
      EncodePartsAppend(parts[..i], [parts[i]], presigned);
      EncodeOne(parts[i], presigned);
      if presigned && QueryUnescape(key) == Some(SIGNATURE) { continue; }
      var k := UriEncode(key, false);
      var v := UriEncode(value, false);
      encoded := encoded + [Pair(k, v)];
    }
    assert parts[..|parts|] == parts;
  }
}
