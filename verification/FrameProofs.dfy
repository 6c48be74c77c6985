/** The frame header is a strict, order-free notation: what is printed is parsed back, nothing else is
    accepted, and the order of the fields does not matter. */
module FrameProofs {
  import opened Octets
  import opened MessagePack
  import opened Frames

  type Pair = (Text, Value)

  /** `f` is the encoding of one field, and nothing more. */
  predicate IsField(schema: Schema, f: Text, p: Pair) {
    DecodeField(schema, {}, f) == Ok((p, []))
  }

  predicate AreFields(schema: Schema, fs: seq<Text>, ps: seq<Pair>) {
    |fs| == |ps| && forall i :: 0 <= i < |fs| ==> IsField(schema, fs[i], ps[i])
  }

  predicate Distinct(ps: seq<Pair>) {
    forall i, j :: 0 <= i < j < |ps| ==> ps[i].0 != ps[j].0
  }

  function Assign(f: Fields, ps: seq<Pair>): Fields
    decreases |ps|
  {
    if ps == [] then f else Assign(f[ps[0].0 := ps[0].1], ps[1..])
  }

  // ----- decoding does not look past what it consumes -----

  lemma {:induction false} ValueExtends(kind: Kind, b: Text, tail: Text)
    requires DecodeValue(kind, b).Ok?
    ensures DecodeValue(kind, b + tail) == Ok((DecodeValue(kind, b).value.0, DecodeValue(kind, b).value.1 + tail))
    decreases kind.MapKind?, 0, 0
  {
    match kind
    case StrKind => StrExtends(b, tail);
    case IntKind => IntExtends(b, tail);
    case MapKind => MetadataExtends(b, tail);
  }

  lemma {:induction false} FieldExtends(schema: Schema, seen: set<Text>, b: Text, tail: Text)
    requires DecodeField(schema, seen, b).Ok?
    ensures DecodeField(schema, seen, b + tail) == Ok((DecodeField(schema, seen, b).value.0, DecodeField(schema, seen, b).value.1 + tail))
    decreases MapKind in schema.Values, 1, 0
  {
    StrExtends(b, tail);
    var (key, r) := DecodeStr(b).value;
    ValueExtends(schema[key], r, tail);
  }

  lemma {:induction false} FieldsExtend(schema: Schema, n: nat, b: Text, f: Fields, tail: Text)
    requires DecodeFields(schema, n, b, f).Ok?
    ensures DecodeFields(schema, n, b + tail, f) == Ok((DecodeFields(schema, n, b, f).value.0, DecodeFields(schema, n, b, f).value.1 + tail))
    decreases MapKind in schema.Values, 2, n
  {
    if n > 0 {
      FieldExtends(schema, f.Keys, b, tail);
      var (kv, r) := DecodeField(schema, f.Keys, b).value;
      FieldsExtend(schema, n - 1, r, f[kv.0 := kv.1], tail);
    }
  }

  lemma {:induction false} MapExtends(schema: Schema, b: Text, tail: Text)
    requires DecodeMap(schema, b).Ok?
    ensures DecodeMap(schema, b + tail) == Ok((DecodeMap(schema, b).value.0, DecodeMap(schema, b).value.1 + tail))
    decreases MapKind in schema.Values, 3, 0
  {
    MapLenExtends(b, tail);
    FieldsExtend(schema, DecodeMapLen(b).value.0, DecodeMapLen(b).value.1, map[], tail);
  }

  lemma {:induction false} MetadataExtends(b: Text, tail: Text)
    requires DecodeMetadata(b).Ok?
    ensures DecodeMetadata(b + tail) == Ok((DecodeMetadata(b).value.0, DecodeMetadata(b).value.1 + tail))
    decreases false, 4, 0
  {
    MapExtends(METADATA_SCHEMA, b, tail);
  }

  // ----- putting fields together -----

  lemma FieldThen(schema: Schema, seen: set<Text>, f: Text, p: Pair, tail: Text)
    requires IsField(schema, f, p)
    ensures p.0 !in seen ==> DecodeField(schema, seen, f + tail) == Ok((p, tail))
    ensures p.0 in seen ==> DecodeField(schema, seen, f + tail) == Err(Duplicate)
  {
    StrExtends(f, tail);
    FieldExtends(schema, {}, f, tail);
    assert [] + tail == tail;
  }

  /** No key is repeated, nor one that `f` has already. */
  predicate Clear(f: Fields, ps: seq<Pair>) {
    Distinct(ps) && forall i :: 0 <= i < |ps| ==> ps[i].0 !in f
  }

  lemma ClearTail(f: Fields, ps: seq<Pair>)
    requires ps != [] && ps[0].0 !in f
    ensures Clear(f, ps) <==> Clear(f[ps[0].0 := ps[0].1], ps[1..])
  {
    var t := ps[1..];
    assert forall i :: 1 <= i < |ps| ==> ps[i] == t[i - 1];
    if Clear(f[ps[0].0 := ps[0].1], t) {
      forall i, j | 0 <= i < j < |ps| ensures ps[i].0 != ps[j].0 { assert ps[j] == t[j - 1]; }
    }
  }

  /** A sequence of well-formed fields decodes exactly when no key is repeated. */
  lemma {:induction false} FieldsCompose(schema: Schema, fs: seq<Text>, ps: seq<Pair>, f: Fields, tail: Text)
    requires AreFields(schema, fs, ps)
    ensures DecodeFields(schema, |fs|, Concat(fs) + tail, f) == if Clear(f, ps) then Ok((Assign(f, ps), tail)) else Err(Duplicate)
    decreases |fs|
  {
    if fs == [] {
      assert Concat(fs) + tail == tail;
    } else {
      var rest := Concat(fs[1..]) + tail;
      assert Concat(fs) + tail == fs[0] + rest;
      FieldThen(schema, f.Keys, fs[0], ps[0], rest);
      if ps[0].0 !in f {
        FieldsCompose(schema, fs[1..], ps[1..], f[ps[0].0 := ps[0].1], tail);
        ClearTail(f, ps);
      }
    }
  }

  // ----- what Assign does -----

  lemma {:induction false} AssignKeeps(f: Fields, ps: seq<Pair>, key: Text)
    requires forall i :: 0 <= i < |ps| ==> ps[i].0 != key
    ensures (key in Assign(f, ps) <==> key in f) && (key in f ==> Assign(f, ps)[key] == f[key])
    decreases |ps|
  {
    if ps != [] { AssignKeeps(f[ps[0].0 := ps[0].1], ps[1..], key); }
  }

  lemma {:induction false} AssignAt(f: Fields, ps: seq<Pair>, i: nat)
    requires i < |ps| && Distinct(ps)
    ensures ps[i].0 in Assign(f, ps) && Assign(f, ps)[ps[i].0] == ps[i].1
    decreases |ps|
  {
    var f' := f[ps[0].0 := ps[0].1];
    if i == 0 {
      forall j | 0 <= j < |ps[1..]| ensures ps[1..][j].0 != ps[0].0 { assert ps[1..][j] == ps[j + 1]; }
      AssignKeeps(f', ps[1..], ps[0].0);
    } else {
      AssignAt(f', ps[1..], i - 1);
    }
  }

  lemma AssignOnly(ps: seq<Pair>, key: Text)
    requires key in Assign(map[], ps)
    ensures exists i :: 0 <= i < |ps| && ps[i].0 == key
  {
    if forall i :: 0 <= i < |ps| ==> ps[i].0 != key { AssignKeeps(map[], ps, key); }
  }

  // ----- order does not matter -----

  lemma {:induction false} TwiceInSeq(s: seq<Pair>, i: nat, j: nat)
    requires i < j < |s| && s[i] == s[j]
    ensures multiset(s)[s[i]] >= 2
  {
    assert s == s[..j] + [s[j]] + s[j + 1..];
    assert s[..j][i] == s[i];
    assert s[i] in multiset(s[..j]);
  }

  lemma {:induction false} TwiceInMultiset(s: seq<Pair>, x: Pair) returns (i: nat, j: nat)
    requires multiset(s)[x] >= 2
    ensures i < j < |s| && s[i] == s[j] == x
  {
    i :| i < |s| && s[i] == x;
    var rest := s[..i] + s[i + 1..];
    assert s == s[..i] + [x] + s[i + 1..];
    assert multiset(s) == multiset(rest) + multiset{x};
    assert x in multiset(rest);
    var k :| 0 <= k < |rest| && rest[k] == x;
    j := if k < i then k else k + 1;
    assert s[j] == x && i != j;
    if j < i { i, j := j, i; }
  }

  lemma SameElements(ps: seq<Pair>, qs: seq<Pair>, p: Pair)
    requires multiset(ps) == multiset(qs) && p in qs
    ensures p in ps
  {
    assert p in multiset(qs);
    assert p in multiset(ps);
  }

  lemma ReorderedDistinct(ps: seq<Pair>, qs: seq<Pair>)
    requires multiset(ps) == multiset(qs) && Distinct(ps)
    ensures Distinct(qs)
  {
    forall i, j | 0 <= i < j < |qs| ensures qs[i].0 != qs[j].0 {
      if qs[i] == qs[j] {
        TwiceInSeq(qs, i, j);
        var a, b := TwiceInMultiset(ps, qs[i]);
      } else {
        SameElements(ps, qs, qs[i]);
        SameElements(ps, qs, qs[j]);
        var a :| 0 <= a < |ps| && ps[a] == qs[i];
        var b :| 0 <= b < |ps| && ps[b] == qs[j];
      }
    }
  }

  lemma ReorderedIncluded(ps: seq<Pair>, qs: seq<Pair>, key: Text)
    requires multiset(ps) == multiset(qs) && Distinct(ps) && Distinct(qs) && key in Assign(map[], ps)
    ensures key in Assign(map[], qs) && Assign(map[], qs)[key] == Assign(map[], ps)[key]
  {
    AssignOnly(ps, key);
    var i :| 0 <= i < |ps| && ps[i].0 == key;
    AssignAt(map[], ps, i);
    SameElements(qs, ps, ps[i]);
    var j :| 0 <= j < |qs| && qs[j] == ps[i];
    AssignAt(map[], qs, j);
  }

  lemma ReorderedAssign(ps: seq<Pair>, qs: seq<Pair>)
    requires multiset(ps) == multiset(qs) && Distinct(ps)
    ensures Distinct(qs) && Assign(map[], ps) == Assign(map[], qs)
  {
    ReorderedDistinct(ps, qs);
    forall key | key in Assign(map[], ps) ensures key in Assign(map[], qs) && Assign(map[], qs)[key] == Assign(map[], ps)[key] {
      ReorderedIncluded(ps, qs, key);
    }
    forall key | key in Assign(map[], qs) ensures key in Assign(map[], ps) { ReorderedIncluded(qs, ps, key); }
  }

  lemma MapThen(len: Text, n: nat, body: Text)
    requires DecodeMapLen(len) == Ok((n, []))
    ensures DecodeMapLen(len + body) == Ok((n, body))
  {
    MapLenExtends(len, body);
    assert [] + body == body;
  }

  /** A map written out: a length and that many fields. */
  ghost predicate IsMap(schema: Schema, b: Text, len: Text, fs: seq<Text>, ps: seq<Pair>) {
    DecodeMapLen(len) == Ok((|fs|, [])) && AreFields(schema, fs, ps) && b == len + Concat(fs)
  }

  lemma MapCompose(schema: Schema, b: Text, len: Text, fs: seq<Text>, ps: seq<Pair>, tail: Text)
    requires IsMap(schema, b, len, fs, ps)
    ensures DecodeMap(schema, b + tail) == if Distinct(ps) then Ok((Assign(map[], ps), tail)) else Err(Duplicate)
  {
    MapThen(len, |fs|, Concat(fs) + tail);
    Glue(len, Concat(fs), tail);
    FieldsCompose(schema, fs, ps, map[], tail);
  }

  /** Any reordering of the fields, however each is encoded and however the length is written, decodes alike. */
  lemma MapReordered(schema: Schema, b: Text, len: Text, fs: seq<Text>, ps: seq<Pair>,
                     c: Text, len': Text, gs: seq<Text>, qs: seq<Pair>, tail: Text)
    requires IsMap(schema, b, len, fs, ps) && IsMap(schema, c, len', gs, qs) && multiset(ps) == multiset(qs)
    ensures DecodeMap(schema, b + tail) == DecodeMap(schema, c + tail)
  {
    MapCompose(schema, b, len, fs, ps, tail);
    MapCompose(schema, c, len', gs, qs, tail);
    if Distinct(ps) { ReorderedAssign(ps, qs); }
    else if Distinct(qs) { ReorderedAssign(qs, ps); }
  }

  /** Reordering the metadata map changes nothing, whatever follows it. */
  lemma MetadataOrderIsFree(b: Text, len: Text, fs: seq<Text>, ps: seq<Pair>,
                            c: Text, len': Text, gs: seq<Text>, qs: seq<Pair>, tail: Text)
    requires IsMap(METADATA_SCHEMA, b, len, fs, ps) && IsMap(METADATA_SCHEMA, c, len', gs, qs)
    requires multiset(ps) == multiset(qs)
    ensures DecodeMetadata(b + tail) == DecodeMetadata(c + tail)
  {
    MapReordered(METADATA_SCHEMA, b, len, fs, ps, c, len', gs, qs, tail);
  }

  /** Reordering the header map changes nothing: same header, or same rejection. */
  lemma HeaderOrderIsFree(b: Text, len: Text, fs: seq<Text>, ps: seq<Pair>,
                          c: Text, len': Text, gs: seq<Text>, qs: seq<Pair>)
    requires IsMap(HEADER_SCHEMA, b, len, fs, ps) && IsMap(HEADER_SCHEMA, c, len', gs, qs)
    requires multiset(ps) == multiset(qs)
    ensures DecodePayload(b) == DecodePayload(c)
  {
    MapReordered(HEADER_SCHEMA, b, len, fs, ps, c, len', gs, qs, []);
    assert b + [] == b && c + [] == c;
  }

  // ----- taking fields apart -----

  lemma {:induction false} ValueShrinks(kind: Kind, b: Text)
    requires DecodeValue(kind, b).Ok?
    ensures var (v, r) := DecodeValue(kind, b).value;
            |r| < |b| && r == b[|b| - |r|..] && DecodeValue(kind, b[..|b| - |r|]) == Ok((v, []))
    decreases kind.MapKind?, 0, 0
  {
    match kind
    case StrKind => StrShrinks(b);
    case IntKind => IntShrinks(b);
    case MapKind => MetadataShrinks(b);
  }

  lemma SplitTwice(b: Text, rest: Text, r: Text)
    requires |r| <= |rest| <= |b| && rest == b[|b| - |rest|..] && r == rest[|rest| - |r|..]
    ensures b[..|b| - |r|] == b[..|b| - |rest|] + rest[..|rest| - |r|]
    ensures r == b[|b| - |r|..] && b == b[..|b| - |r|] + r
  {
  }

  /** A key and a value that decode alone decode together. */
  lemma KeyThenValue(schema: Schema, k: Text, key: Text, used: Text, v: Value)
    requires DecodeStr(k) == Ok((key, [])) && key in schema && DecodeValue(schema[key], used) == Ok((v, []))
    ensures IsField(schema, k + used, (key, v))
  {
    StrExtends(k, used);
    assert [] + used == used;
  }

  /** A decoded field is a new key and its value. */
  lemma FieldParts(schema: Schema, seen: set<Text>, b: Text)
    requires DecodeField(schema, seen, b).Ok?
    ensures DecodeStr(b).Ok?
    ensures var (key, rest) := DecodeStr(b).value;
            && key !in seen && key in schema && DecodeValue(schema[key], rest).Ok?
            && DecodeField(schema, seen, b) ==
                 Ok(((key, DecodeValue(schema[key], rest).value.0), DecodeValue(schema[key], rest).value.1))
  {
  }

  /** A field that decodes in front of other octets is a field by itself. */
  lemma {:induction false} FieldShrinks(schema: Schema, seen: set<Text>, b: Text)
    requires DecodeField(schema, seen, b).Ok?
    ensures var (p, r) := DecodeField(schema, seen, b).value;
            |r| < |b| && b == b[..|b| - |r|] + r && IsField(schema, b[..|b| - |r|], p) && p.0 !in seen && p.0 in schema
    decreases MapKind in schema.Values, 1, 1
  {
    StrShrinks(b);
    FieldParts(schema, seen, b);
    ValueCut(schema, b, DecodeStr(b).value.0, DecodeStr(b).value.1);
  }

  /** A value behind its key. */
  lemma {:induction false} ValueCut(schema: Schema, b: Text, key: Text, rest: Text)
    requires |rest| < |b| && rest == b[|b| - |rest|..] && DecodeStr(b[..|b| - |rest|]) == Ok((key, []))
    requires key in schema && DecodeValue(schema[key], rest).Ok?
    ensures var (v, r) := DecodeValue(schema[key], rest).value;
            |r| < |b| && b == b[..|b| - |r|] + r && IsField(schema, b[..|b| - |r|], (key, v))
    decreases MapKind in schema.Values, 1, 0
  {
    ValueShrinks(schema[key], rest);
    FieldCut(schema, b, key, rest, DecodeValue(schema[key], rest).value.0, DecodeValue(schema[key], rest).value.1);
  }

  /** The octets of a field, cut out of what it came from. */
  lemma FieldCut(schema: Schema, b: Text, key: Text, rest: Text, v: Value, r: Text)
    requires |r| < |rest| < |b| && rest == b[|b| - |rest|..] && r == rest[|rest| - |r|..] && key in schema
    requires DecodeStr(b[..|b| - |rest|]) == Ok((key, [])) && DecodeValue(schema[key], rest[..|rest| - |r|]) == Ok((v, []))
    ensures b == b[..|b| - |r|] + r && IsField(schema, b[..|b| - |r|], (key, v))
  {
    SplitTwice(b, rest, r);
    KeyThenValue(schema, b[..|b| - |rest|], key, rest[..|rest| - |r|], v);
  }

  /** One field in front of others. */
  lemma FieldBefore(schema: Schema, f: Fields, first: Text, p: Pair, fs: seq<Text>, ps: seq<Pair>, rest: Text)
    requires IsField(schema, first, p) && p.0 !in f && p.0 in schema
    requires AreFields(schema, fs, ps) && Clear(f[p.0 := p.1], ps) && forall i :: 0 <= i < |ps| ==> ps[i].0 in schema
    ensures AreFields(schema, [first] + fs, [p] + ps) && Clear(f, [p] + ps)
    ensures Concat([first] + fs) + rest == first + (Concat(fs) + rest) && Assign(f, [p] + ps) == Assign(f[p.0 := p.1], ps)
    ensures forall i :: 0 <= i < |[p] + ps| ==> ([p] + ps)[i].0 in schema
  {
    assert ([p] + ps)[1..] == ps && ([first] + fs)[1..] == fs;
    ClearTail(f, [p] + ps);
    Glue(first, Concat(fs), rest);
  }

  /** The first field of a map body, and what is left of it. */
  lemma {:induction false} FirstField(schema: Schema, n: nat, b: Text, f: Fields) returns (first: Text, p: Pair, r: Text)
    requires n > 0 && DecodeFields(schema, n, b, f).Ok?
    ensures b == first + r && IsField(schema, first, p) && p.0 !in f && p.0 in schema
    ensures DecodeFields(schema, n - 1, r, f[p.0 := p.1]) == DecodeFields(schema, n, b, f)
    decreases MapKind in schema.Values, 1, 2
  {
    FieldsParts(schema, n, b, f);
    FieldShrinks(schema, f.Keys, b);
    r := DecodeField(schema, f.Keys, b).value.1;
    p := DecodeField(schema, f.Keys, b).value.0;
    first := b[..|b| - |r|];
  }

  lemma FieldsParts(schema: Schema, n: nat, b: Text, f: Fields)
    requires n > 0 && DecodeFields(schema, n, b, f).Ok?
    ensures DecodeField(schema, f.Keys, b).Ok?
    ensures var (p, r) := DecodeField(schema, f.Keys, b).value;
            DecodeFields(schema, n - 1, r, f[p.0 := p.1]) == DecodeFields(schema, n, b, f)
  {
  }

  /** A successful run over a map body consists of `n` fields with different keys. */
  lemma {:induction false} FieldsDecompose(schema: Schema, n: nat, b: Text, f: Fields) returns (fs: seq<Text>, ps: seq<Pair>)
    requires DecodeFields(schema, n, b, f).Ok?
    ensures |fs| == n && AreFields(schema, fs, ps) && Clear(f, ps)
    ensures var (g, r) := DecodeFields(schema, n, b, f).value; b == Concat(fs) + r && g == Assign(f, ps)
    ensures forall i :: 0 <= i < |ps| ==> ps[i].0 in schema
    decreases MapKind in schema.Values, 2, n
  {
    if n == 0 {
      fs, ps := [], [];
    } else {
      var first, p, r := FirstField(schema, n, b, f);
      var fs', ps' := FieldsDecompose(schema, n - 1, r, f[p.0 := p.1]);
      fs, ps := [first] + fs', [p] + ps';
      FieldBefore(schema, f, first, p, fs', ps', DecodeFields(schema, n, b, f).value.1);
    }
  }

  lemma {:induction false} MapDecompose(schema: Schema, b: Text) returns (used: Text, len: Text, fs: seq<Text>, ps: seq<Pair>)
    requires DecodeMap(schema, b).Ok?
    ensures IsMap(schema, used, len, fs, ps) && Distinct(ps) && len != []
    ensures var (f, r) := DecodeMap(schema, b).value; b == used + r && f == Assign(map[], ps)
    ensures forall i :: 0 <= i < |ps| ==> ps[i].0 in schema
    decreases MapKind in schema.Values, 3, 0
  {
    MapLenShrinks(b);
    var (n, body) := DecodeMapLen(b).value;
    fs, ps := FieldsDecompose(schema, n, body, map[]);
    len := b[..|b| - |body|];
    used := len + Concat(fs);
    assert b == len + body;
    Glue(len, Concat(fs), DecodeMap(schema, b).value.1);
  }

  lemma {:induction false} MetadataShrinks(b: Text)
    requires DecodeMetadata(b).Ok?
    ensures var (m, r) := DecodeMetadata(b).value;
            |r| < |b| && r == b[|b| - |r|..] && DecodeMetadata(b[..|b| - |r|]) == Ok((m, []))
    decreases false, 4, 0
  {
    var used, len, fs, ps := MapDecompose(METADATA_SCHEMA, b);
    MapCompose(METADATA_SCHEMA, used, len, fs, ps, []);
    assert used + [] == used;
    assert b[..|b| - |DecodeMetadata(b).value.1|] == used;
  }

  function Keys(ps: seq<Pair>): set<Text> {
    set i | 0 <= i < |ps| :: ps[i].0
  }

  ghost predicate IsFourFields(p: Text, len: Text, fs: seq<Text>, ps: seq<Pair>) {
    IsMap(HEADER_SCHEMA, p, len, fs, ps) && |fs| == 4 && Distinct(ps) && Keys(ps) == HEADER_SCHEMA.Keys
  }

  lemma {:induction false} DistinctCount(ps: seq<Pair>)
    requires Distinct(ps)
    ensures |Keys(ps)| == |ps|
    decreases |ps|
  {
    var keys := Keys(ps);
    if ps != [] {
      var init := ps[..|ps| - 1];
      DistinctCount(init);
      var keys' := Keys(init);
      var last := ps[|ps| - 1].0;
      forall k | k in keys ensures k in keys' + {last} {
        var i :| 0 <= i < |ps| && ps[i].0 == k;
        if i < |init| { assert init[i].0 == k; }
      }
      forall k | k in keys' ensures k in keys && k != last {
        var i :| 0 <= i < |init| && init[i].0 == k;
        assert ps[i].0 == k;
      }
      assert keys == keys' + {last};
    }
  }

  /** Strictness: a payload is accepted only if it is a map of exactly the four fields, once each, with nothing behind it. */
  lemma PayloadIsFourFields(p: Text) returns (len: Text, fs: seq<Text>, ps: seq<Pair>)
    requires DecodePayload(p).Ok?
    ensures IsFourFields(p, len, fs, ps)
    ensures DecodePayload(p) == ValidateHeader(HeaderOf(Assign(map[], ps)))
  {
    PayloadParts(p);
    HeaderSchemaSize();
    len, fs, ps := WholeMap(HEADER_SCHEMA, p);
  }

  /** A map that has every field of the schema, and nothing behind it. */
  lemma WholeMap(schema: Schema, p: Text) returns (len: Text, fs: seq<Text>, ps: seq<Pair>)
    requires DecodeMap(schema, p).Ok? && DecodeMap(schema, p).value.1 == [] && schema.Keys <= DecodeMap(schema, p).value.0.Keys
    ensures IsMap(schema, p, len, fs, ps) && |fs| == |schema.Keys| && Distinct(ps) && Keys(ps) == schema.Keys
    ensures DecodeMap(schema, p).value.0 == Assign(map[], ps)
  {
    var used;
    used, len, fs, ps := MapDecompose(schema, p);
    assert used + [] == used;
    AllKeys(schema, ps);
  }

  lemma PayloadParts(p: Text)
    requires DecodePayload(p).Ok?
    ensures DecodeMap(HEADER_SCHEMA, p).Ok?
    ensures var (f, r) := DecodeMap(HEADER_SCHEMA, p).value;
            r == [] && HEADER_SCHEMA.Keys <= f.Keys && DecodePayload(p) == ValidateHeader(HeaderOf(f))
  {
  }

  /** Conversely, every such payload is decoded to the header that its fields say, and then validated. */
  lemma FourFieldsDecode(p: Text, len: Text, fs: seq<Text>, ps: seq<Pair>)
    requires IsFourFields(p, len, fs, ps)
    ensures DecodePayload(p) == ValidateHeader(HeaderOf(Assign(map[], ps)))
  {
    MapCompose(HEADER_SCHEMA, p, len, fs, ps, []);
    assert p + [] == p;
    forall key | key in HEADER_SCHEMA ensures key in Assign(map[], ps) {
      var i :| 0 <= i < |ps| && ps[i].0 == key;
      AssignAt(map[], ps, i);
    }
  }

  lemma AllKeys(schema: Schema, ps: seq<Pair>)
    requires Distinct(ps) && schema.Keys <= Assign(map[], ps).Keys
    requires forall i :: 0 <= i < |ps| ==> ps[i].0 in schema
    ensures |ps| == |schema.Keys| && Keys(ps) == schema.Keys
  {
    forall k | k in schema ensures k in Keys(ps) {
      AssignOnly(ps, k);
      var i :| 0 <= i < |ps| && ps[i].0 == k;
    }
    forall k | k in Keys(ps) ensures k in schema {
      var i :| 0 <= i < |ps| && ps[i].0 == k;
    }
    assert Keys(ps) == schema.Keys;
    DistinctCount(ps);
  }

  lemma HeaderSchemaSize()
    ensures |HEADER_SCHEMA.Keys| == 4
  {
    assert HEADER_SCHEMA.Keys == {"request_id", "ingest_token", "body_length", "metadata"};
  }

  // ----- the round trip -----

  lemma StrIsField(schema: Schema, key: Text, value: Text)
    requires key in schema && schema[key].StrKind? && |key| < 0x1_0000_0000 && |value| < 0x1_0000_0000
    ensures IsField(schema, StrField(key, value), (key, StrValue(value)))
  {
    StrRoundTrip(key, []);
    StrRoundTrip(value, []);
    assert EncodeStr(key) + [] == EncodeStr(key) && EncodeStr(value) + [] == EncodeStr(value);
    KeyThenValue(schema, EncodeStr(key), key, EncodeStr(value), StrValue(value));
  }

  lemma IntIsField(schema: Schema, key: Text, value: int)
    requires key in schema && schema[key].IntKind? && |key| < 0x1_0000_0000 && IsInt64(value)
    ensures IsField(schema, IntField(key, value), (key, IntValue(value)))
  {
    StrRoundTrip(key, []);
    IntRoundTrip(value, []);
    assert EncodeStr(key) + [] == EncodeStr(key) && EncodeInt(value) + [] == EncodeInt(value);
    KeyThenValue(schema, EncodeStr(key), key, EncodeInt(value), IntValue(value));
  }

  function MetadataPairs(m: Metadata): seq<Pair> {
    [("status_code", IntValue(m.statusCode)), ("content_type", StrValue(m.contentType)),
     ("content_length", StrValue(m.contentLength)), ("content_range", StrValue(m.contentRange)),
     ("etag", StrValue(m.etag)), ("last_modified", StrValue(m.lastModified)), ("accept_ranges", StrValue(m.acceptRanges))]
  }

  function HeaderPairs(h: Header): seq<Pair> {
    [("request_id", StrValue(h.requestId)), ("ingest_token", StrValue(h.ingestToken)),
     ("body_length", IntValue(h.bodyLength)), ("metadata", MapValue(h.metadata))]
  }

  lemma MetadataSchemaIs()
    ensures METADATA_SCHEMA["status_code"] == IntKind && METADATA_SCHEMA["content_type"] == StrKind
    ensures METADATA_SCHEMA["content_length"] == StrKind && METADATA_SCHEMA["content_range"] == StrKind
    ensures METADATA_SCHEMA["etag"] == StrKind && METADATA_SCHEMA["last_modified"] == StrKind
    ensures METADATA_SCHEMA["accept_ranges"] == StrKind
  {
  }

  lemma MetadataFieldIs(m: Metadata, i: nat)
    requires Encodable(Header("", "", 0, m)) && i < 7
    ensures IsField(METADATA_SCHEMA, MetadataFields(m)[i], MetadataPairs(m)[i])
  {
    MetadataPairIs(m, i);
    var (key, value) := MetadataPairs(m)[i];
    if i == 0 { IntIsField(METADATA_SCHEMA, key, m.statusCode); }
    else { StrIsField(METADATA_SCHEMA, key, value.s); }
  }

  lemma MetadataPairIs(m: Metadata, i: nat)
    requires Encodable(Header("", "", 0, m)) && i < 7
    ensures var (key, value) := MetadataPairs(m)[i];
            && |key| < 16 && key in METADATA_SCHEMA
            && if i == 0 then METADATA_SCHEMA[key] == IntKind && value == IntValue(m.statusCode) && MetadataFields(m)[i] == IntField(key, m.statusCode)
               else METADATA_SCHEMA[key] == StrKind && value.StrValue? && |value.s| < 0x1_0000_0000 && MetadataFields(m)[i] == StrField(key, value.s)
  {
    MetadataSchemaIs();
  }

  lemma MetadataFieldsAre(m: Metadata)
    requires Encodable(Header("", "", 0, m))
    ensures AreFields(METADATA_SCHEMA, MetadataFields(m), MetadataPairs(m))
  {
    forall i | 0 <= i < 7 ensures IsField(METADATA_SCHEMA, MetadataFields(m)[i], MetadataPairs(m)[i]) {
      MetadataFieldIs(m, i);
    }
  }

  lemma MetadataPairsGive(m: Metadata)
    ensures Distinct(MetadataPairs(m)) && MetadataOf(Assign(map[], MetadataPairs(m))) == m
  {
    var ps := MetadataPairs(m);
    AssignAt(map[], ps, 0);
    AssignAt(map[], ps, 1);
    AssignAt(map[], ps, 2);
    AssignAt(map[], ps, 3);
    AssignAt(map[], ps, 4);
    AssignAt(map[], ps, 5);
    AssignAt(map[], ps, 6);
  }

  lemma MetadataRoundTrip(m: Metadata, tail: Text)
    requires Encodable(Header("", "", 0, m))
    ensures DecodeMetadata(EncodeMapLen(7) + Concat(MetadataFields(m)) + tail) == Ok((m, tail))
  {
    var b, fs, ps := EncodeMapLen(7) + Concat(MetadataFields(m)), MetadataFields(m), MetadataPairs(m);
    MapLenRoundTrip(7, []);
    assert EncodeMapLen(7) + [] == EncodeMapLen(7);
    MetadataFieldsAre(m);
    MetadataPairsGive(m);
    MapCompose(METADATA_SCHEMA, b, EncodeMapLen(7), fs, ps, tail);
  }

  lemma HeaderSchemaIs()
    ensures HEADER_SCHEMA["request_id"] == StrKind && HEADER_SCHEMA["ingest_token"] == StrKind
    ensures HEADER_SCHEMA["body_length"] == IntKind && HEADER_SCHEMA["metadata"] == MapKind
  {
  }

  lemma MetadataPartIs(h: Header)
    requires Encodable(h)
    ensures IsField(HEADER_SCHEMA, HeaderFields(h)[3], HeaderPairs(h)[3])
  {
    HeaderSchemaIs();
    MapIsField(HEADER_SCHEMA, "metadata", h.metadata);
    Glue(EncodeStr("metadata"), EncodeMapLen(7), Concat(MetadataFields(h.metadata)));
  }

  lemma MapIsField(schema: Schema, key: Text, m: Metadata)
    requires key in schema && schema[key].MapKind? && |key| < 0x1_0000_0000 && Encodable(Header("", "", 0, m))
    ensures IsField(schema, EncodeStr(key) + (EncodeMapLen(7) + Concat(MetadataFields(m))), (key, MapValue(m)))
  {
    var used := EncodeMapLen(7) + Concat(MetadataFields(m));
    MetadataRoundTrip(m, []);
    StrRoundTrip(key, []);
    assert used + [] == used && EncodeStr(key) + [] == EncodeStr(key);
    KeyThenValue(schema, EncodeStr(key), key, used, MapValue(m));
  }

  lemma HeaderFieldIs(h: Header, i: nat)
    requires Encodable(h) && i < 4
    ensures IsField(HEADER_SCHEMA, HeaderFields(h)[i], HeaderPairs(h)[i])
  {
    HeaderSchemaIs();
    var (key, value) := HeaderPairs(h)[i];
    if i == 2 { IntIsField(HEADER_SCHEMA, key, h.bodyLength); }
    else if i == 3 { MetadataPartIs(h); }
    else { StrIsField(HEADER_SCHEMA, key, value.s); }
  }

  lemma HeaderPairsGive(h: Header)
    ensures Distinct(HeaderPairs(h)) && HeaderOf(Assign(map[], HeaderPairs(h))) == h && Complete(Assign(map[], HeaderPairs(h)))
  {
    var ps := HeaderPairs(h);
    AssignAt(map[], ps, 0);
    AssignAt(map[], ps, 1);
    AssignAt(map[], ps, 2);
    AssignAt(map[], ps, 3);
  }

  lemma PayloadRoundTrip(h: Header)
    requires Encodable(h)
    ensures DecodeHeaderMap(Payload(h)) == Ok((h, []))
  {
    var b, fs, ps := Payload(h), HeaderFields(h), HeaderPairs(h);
    MapLenRoundTrip(4, []);
    assert EncodeMapLen(4) + [] == EncodeMapLen(4) && b + [] == b;
    forall i | 0 <= i < 4 ensures IsField(HEADER_SCHEMA, fs[i], ps[i]) { HeaderFieldIs(h, i); }
    HeaderPairsGive(h);
    MapCompose(HEADER_SCHEMA, b, EncodeMapLen(4), fs, ps, []);
  }

  lemma UnframeRoundTrip(p: Text, body: Text, maxHeaderBytes: int)
    requires 0 < |p| <= DEFAULT_MAX_HEADER_BYTES
    ensures Unframe(Framed(p) + body, maxHeaderBytes) ==
            if 0 < maxHeaderBytes < |p| then Err(Malformed) else Ok((p, body))
  {
    var b, len := Framed(p) + body, BigEndian(|p|, 4);
    Powers();
    BigEndianRoundTrip(|p|, 4);
    assert b == MAGIC + ([Byte(VERSION)] + len + p + body);
    assert b[..4] == MAGIC;
    assert b[5..9] == len;
    assert b[9..9 + |p|] == p;
    assert b[9 + |p|..] == body;
  }

  /** DecodeHeader undoes EncodeHeader and leaves the body alone. */
  lemma FrameRoundTrip(h: Header, body: Text, maxHeaderBytes: int)
    requires IsInt64(h.bodyLength) && IsInt64(h.metadata.statusCode) && Encode(h).Ok?
    ensures var h' := ValidateHeader(h).value;
            Decode(Encode(h).value + body, maxHeaderBytes) ==
            if 0 < maxHeaderBytes < |Payload(h')| then Err(Malformed) else Ok((h', body))
  {
    var h' := ValidateHeader(h).value;
    PayloadRoundTrip(h');
    ValidateHeaderIdempotent(h);
    UnframeRoundTrip(Payload(h'), body, maxHeaderBytes);
  }
}
