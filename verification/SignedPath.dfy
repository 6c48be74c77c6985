/** The path of a signed URL read by objectFromPath (internal/signing/hmac.go), and its agreement with the public
    path parser. */
module SignedPath {
  import opened Octets
  import opened Strings
  import opened Names
  import opened PublicPath

  /** path.Clean of a rooted path, on its elements. */
  function Clean(parts: seq<Text>, stack: seq<Text>): seq<Text>
    decreases |parts|
  {
    if parts == [] then stack
    else if parts[0] == [] || parts[0] == DOT then Clean(parts[1..], stack)
    else if parts[0] == DOTDOT then Clean(parts[1..], if stack == [] then [] else stack[..|stack| - 1])
    else Clean(parts[1..], stack + [parts[0]])
  }

  datatype PathFault = Incomplete | BadPathEscape

  /** objectFromPath: bucket and key. */
  function ObjectFromPath(escapedPath: Text): Result<(Text, Text), PathFault> {
    var cleaned := Join(Clean(Split(['/'] + escapedPath, '/'), []), '/');
    var (first, rest) := Cut(cleaned, '/');
    if first == [] || rest == [] then Err(Incomplete)
    else
      match (PathUnescape(first), PathUnescape(rest))
      case (Some(bucket), Some(key)) => Ok((bucket, key))
      case _ => Err(BadPathEscape)
  }

  predicate Ordinary(parts: seq<Text>) {
    forall i :: 0 <= i < |parts| ==> parts[i] != [] && parts[i] != DOT && parts[i] != DOTDOT
  }

  lemma {:induction false} CleanKeepsOrdinary(parts: seq<Text>, stack: seq<Text>)
    requires Ordinary(parts)
    ensures Clean(parts, stack) == stack + parts
    decreases |parts|
  {
    if parts == [] {
      assert stack + parts == stack;
    } else {
      CleanKeepsOrdinary(parts[1..], stack + [parts[0]]);
      assert stack + [parts[0]] + parts[1..] == stack + parts;
    }
  }

  /** Unescaping goes through concatenation, when the first part does not end in the middle of an escape. */
  lemma {:induction false} UnescapeAppend(a: Text, b: Text)
    requires PathUnescape(a).Some?
    ensures PathUnescape(a + b) == match PathUnescape(b) case None => None case Some(t) => Some(PathUnescape(a).value + t)
  {
    if a == [] {
      assert a + b == b;
      if PathUnescape(b).Some? { assert a + PathUnescape(b).value == PathUnescape(b).value; }
    } else {
      var k := if a[0] == '%' then 3 else 1;
      UnescapeAppend(a[k..], b);
      assert (a + b)[k..] == a[k..] + b && (k == 3 ==> (a + b)[1] == a[1] && (a + b)[2] == a[2]);
      if PathUnescape(b).Some? { Glue(PathUnescape(a).value[..1], PathUnescape(a[k..]).value, PathUnescape(b).value); }
    }
  }

  lemma UnescapeOne(c: Octet)
    requires c != '%'
    ensures PathUnescape([c]) == Some([c])
  {
    var one: Text := [c];
    assert one[1..] == [] && one + [] == one;
  }

  /** So it goes through the slashes between segments. */
  lemma {:induction false} UnescapeOfJoin(parts: seq<Text>)
    requires UnescapeAll(parts).Some? && parts != []
    ensures PathUnescape(Join(parts, '/')) == Some(Join(UnescapeAll(parts).value, '/'))
  {
    if |parts| > 1 {
      var rest := Join(parts[1..], '/');
      UnescapeOfJoin(parts[1..]);
      UnescapeAppend(['/'], rest);
      UnescapeAppend(parts[0], ['/'] + rest);
      Glue(parts[0], ['/'], rest);
      var xs := UnescapeAll(parts).value;
      assert xs[1..] == UnescapeAll(parts[1..]).value;
      Glue(xs[0], ['/'], Join(xs[1..], '/'));
      UnescapeOne('/');
    }
  }

  /** Every segment that goes into a key shows up in the key's own segments. */
  lemma {:induction false} SegmentsShow(xs: seq<Text>, i: nat)
    requires i < |xs| && '/' !in xs[i]
    ensures xs[i] in Split(Join(xs, '/'), '/')
  {
    if |xs| == 1 {
      SplitOne(xs[0], '/');
    } else {
      SplitAppend(xs[0], Join(xs[1..], '/'), '/');
      if i == 0 { SplitOne(xs[0], '/'); } else { SegmentsShow(xs[1..], i - 1); }
    }
  }

  /** The escaped segments of an acceptable object need no cleaning. */
  lemma SegmentsAreOrdinary(parts: seq<Text>)
    requires UnescapeAll(parts).Some? && parts != [] && ValidKey(Join(UnescapeAll(parts).value, '/'))
    ensures Ordinary(parts)
  {
    var xs := UnescapeAll(parts).value;
    forall i | 0 <= i < |parts| ensures parts[i] != [] && parts[i] != DOT && parts[i] != DOTDOT {
      if parts[i] == [] || parts[i] == DOT || parts[i] == DOTDOT {
        Dots();
        assert xs[i] == parts[i];
        SegmentsShow(xs, i);
        assert false;
      }
    }
  }

  lemma Dots()
    ensures PathUnescape([]) == Some([]) && PathUnescape(DOT) == Some(DOT) && PathUnescape(DOTDOT) == Some(DOTDOT)
    ensures '/' !in DOT && '/' !in DOTDOT
  {
    UnescapeOne('.');
    assert DOT == ['.'] && DOTDOT == DOT + DOT;
    UnescapeAppend(DOT, DOT);
  }

  /** Whenever the public parser returns an acceptable bucket and key, the signing parser returns the same. */
  lemma ParsersAgree(p: Text)
    requires ParseEscapedPath(p, Single).Ok?
    requires var o := ParseEscapedPath(p, Single).value; ValidBucket(o.bucket) && ValidKey(o.key)
    ensures var o := ParseEscapedPath(p, Single).value; ObjectFromPath(p) == Ok((o.bucket, o.key))
  {
    var parts := Split(p[1..], '/');
    SegmentsAreOrdinary(parts[1..]);
    Dots();
    OrdinaryWhole(parts);
    CleanedText(p);
    SplitIsClear(p[1..], '/');
    CutOfGlued(parts[0], Join(parts[1..], '/'), '/');
    UnescapeOfJoin(parts[1..]);
    NotEmpty(parts[1..]);
  }

  lemma OrdinaryWhole(parts: seq<Text>)
    requires parts != [] && Ordinary(parts[1..]) && parts[0] != [] && parts[0] != DOT && parts[0] != DOTDOT
    ensures Ordinary(parts)
  {
    forall i | 1 <= i < |parts| ensures parts[i] != [] && parts[i] != DOT && parts[i] != DOTDOT {
      assert parts[i] == parts[1..][i - 1];
    }
  }

  /** A rooted path of ordinary elements, cleaned and without its slash. */
  lemma CleanedText(p: Text)
    requires p != [] && p[0] == '/' && Ordinary(Split(p[1..], '/')) && |Split(p[1..], '/')| > 1
    ensures var parts := Split(p[1..], '/');
            Join(Clean(Split(['/'] + p, '/'), []), '/') == parts[0] + ['/'] + Join(parts[1..], '/')
  {
    var parts := Split(p[1..], '/');
    RootedSplit(p);
    CleanKeepsOrdinary(parts, []);
    assert [] + parts == parts;
  }

  lemma NotEmpty(parts: seq<Text>)
    requires parts != [] && parts[0] != []
    ensures Join(parts, '/') != []
  {
  }

  /** Two leading slashes are two empty elements. */
  lemma RootedSplit(p: Text)
    requires p != [] && p[0] == '/'
    ensures Clean(Split(['/'] + p, '/'), []) == Clean(Split(p[1..], '/'), [])
  {
    var q := ['/'] + p;
    var none: seq<Text> := [[]];
    assert q[1..] == p;
    assert Split(q, '/') == none + Split(p, '/') && Split(p, '/') == none + Split(p[1..], '/');
    assert (none + Split(p, '/'))[1..] == Split(p, '/') && (none + Split(p[1..], '/'))[1..] == Split(p[1..], '/');
  }

  // ----- as it runs -----

  /** nonEmpty, in place: the parts that are kept move to the front. */
  method KeepNonEmpty(parts: array<Text>) returns (n: nat)
    modifies parts
    ensures n <= parts.Length && parts[..n] == NonEmpty(old(parts[..]))
  {
    ghost var was := parts[..];
    n := 0;
    for i := 0 to parts.Length
      invariant n <= i && parts[..n] == NonEmpty(was[..i])
      invariant forall j :: i <= j < parts.Length ==> parts[j] == was[j]
    {
      assert was[..i + 1] == was[..i] + [was[i]];
      NonEmptyAppend(was[..i], [was[i]]);
      One(was[i]);
      ghost var kept := parts[..n];
      if parts[i] != [] {
        parts[n] := parts[i];
        n := n + 1;
        assert parts[..n] == kept + [was[i]];
      }
    }
    assert was[..parts.Length] == was;
  }

  lemma One(part: Text)
    ensures NonEmpty([part]) == if part == [] then [] else [part]
  {
    var one := [part];
    assert one[1..] == [];
  }

  /** unescapeKey. */
  method UnescapeKeySegments(escaped: seq<Text>) returns (key: Option<Text>)
    ensures key == UnescapeKey(escaped)
  {
    var segments := new Text[|escaped|](_ => []);
    for i := 0 to |escaped|
      invariant forall j :: 0 <= j < i ==> PathUnescape(escaped[j]) == Some(segments[j])
    {
      var segment := PathUnescape(escaped[i]);
      if segment.None? {
        UnescapeAllFails(escaped, i);
        return None;
      }
      segments[i] := segment.value;
    }
    UnescapeAllIs(escaped, segments[..]);
    key := Some(Join(segments[..], '/'));
  }

  lemma {:induction false} UnescapeAllIs(escaped: seq<Text>, xs: seq<Text>)
    requires |xs| == |escaped| && forall i :: 0 <= i < |xs| ==> PathUnescape(escaped[i]) == Some(xs[i])
    ensures UnescapeAll(escaped) == Some(xs)
  {
    if xs != [] {
      UnescapeAllIs(escaped[1..], xs[1..]);
      assert xs == [xs[0]] + xs[1..];
    }
  }

  lemma {:induction false} UnescapeAllFails(escaped: seq<Text>, i: nat)
    requires i < |escaped| && PathUnescape(escaped[i]).None?
    ensures UnescapeAll(escaped).None?
  {
    if i > 0 { UnescapeAllFails(escaped[1..], i - 1); }
  }

  /** appendObjectPath. */
  method PrintObjectPath(basePath: Text, o: Object, mode: Mode) returns (p: Text)
    ensures p == AppendObjectPath(basePath, o, mode)
  {
    var server: seq<Text> := if mode.Multi? then [PathEscape(o.server)] else [];
    var front := [TrimSlashes(basePath)] + server + [PathEscape(o.bucket)];
    var parts := AppendEscaped(front, Split(o.key, '/'));
    var kept := Kept(parts);
    p := ['/'] + Join(kept, '/');
  }

  method AppendEscaped(front: seq<Text>, segments: seq<Text>) returns (parts: seq<Text>)
    ensures parts == front + EscapeAll(segments)
  {
    parts := front;
    for i := 0 to |segments|
      invariant parts == front + EscapeAll(segments[..i])
    {
      EscapeOneMore(segments[..i], segments[i]);
      assert segments[..i + 1] == segments[..i] + [segments[i]];
      assert front + EscapeAll(segments[..i]) + [PathEscape(segments[i])] == front + (EscapeAll(segments[..i]) + [PathEscape(segments[i])]);
      parts := parts + [PathEscape(segments[i])];
    }
    assert segments[..|segments|] == segments;
  }

  lemma {:induction false} EscapeOneMore(segments: seq<Text>, last: Text)
    ensures EscapeAll(segments + [last]) == EscapeAll(segments) + [PathEscape(last)]
  {
    if segments == [] {
      assert [] + [last] == [last];
    } else {
      EscapeOneMore(segments[1..], last);
      assert (segments + [last])[1..] == segments[1..] + [last];
    }
  }

  method Kept(parts: seq<Text>) returns (kept: seq<Text>)
    ensures kept == NonEmpty(parts)
  {
    var a := new Text[|parts|](i requires 0 <= i < |parts| => parts[i]);
    assert a[..] == parts;
    var n := KeepNonEmpty(a);
    kept := a[..n];
  }
}
