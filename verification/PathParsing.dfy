/** Exactly which public paths are accepted, and as what, said of their text (internal/publicpath/publicpath.go,
    internal/signing/hmac.go). */
module PathParsing {
  import opened Octets
  import opened Strings
  import opened Names
  import opened PublicPath
  import opened SignedPath
  import UE = UriEncoding

  // ----- escapes -----

  predicate Hex(c: Octet) {
    '0' <= c <= '9' || 'a' <= c <= 'f' || 'A' <= c <= 'F'
  }

  /** Every percent sign is followed by two hexadecimal digits. */
  predicate WellEscaped(s: Text) {
    forall i :: 0 <= i < |s| && s[i] == '%' ==> i + 2 < |s| && Hex(s[i + 1]) && Hex(s[i + 2])
  }

  lemma {:induction false} UnescapesExactlyWhen(s: Text)
    ensures PathUnescape(s).Some? <==> WellEscaped(s)
  {
    if s != [] {
      if s[0] != '%' {
        UnescapesExactlyWhen(s[1..]);
        TailEscaped(s, 1);
      } else if UE.StartsEscaped(s) {
        UnescapesExactlyWhen(s[3..]);
        TailEscaped(s, 3);
      }
    }
  }

  lemma TailEscaped(s: Text, n: nat)
    requires s != [] && if s[0] != '%' then n == 1 else n == 3 && UE.StartsEscaped(s)
    ensures WellEscaped(s) <==> WellEscaped(s[n..])
  {
    var t := s[n..];
    assert forall i :: 0 <= i < |t| ==> t[i] == s[i + n];
    if WellEscaped(t) {
      forall i | 0 <= i < |s| && s[i] == '%' ensures i + 2 < |s| && Hex(s[i + 1]) && Hex(s[i + 2]) {
        if i >= n { assert t[i - n] == '%'; assert t[i - n + 1] == s[i + 1] && t[i - n + 2] == s[i + 2]; }
      }
    }
    if WellEscaped(s) {
      forall i | 0 <= i < |t| && t[i] == '%' ensures i + 2 < |t| && Hex(t[i + 1]) && Hex(t[i + 2]) {
        assert s[i + n] == '%';
        assert s[i + n + 1] == t[i + 1] && s[i + n + 2] == t[i + 2];
      }
    }
  }

  /** Only letters, digits and ten marks go unescaped, and they do. */
  lemma {:induction false} OctetsOfEscaped(s: Text)
    ensures forall c :: c in PathEscape(s) ==>
              || 'A' <= c <= 'Z' || 'a' <= c <= 'z' || '0' <= c <= '9' || c == '-' || c == '.' || c == '_' || c == '~'
              || c == '$' || c == '&' || c == '+' || c == ':' || c == '=' || c == '@' || c == '%'
  {
    if s != [] {
      OctetsOfEscaped(s[1..]);
      EscapeOctets(s[0]);
    }
  }

  lemma EscapeOctets(c: Octet)
    ensures forall d :: d in UE.Escape(c) ==> d == '%' || '0' <= d <= '9' || 'A' <= d <= 'F'
  {
  }

  lemma {:induction false} PlainStays(s: Text)
    requires forall c :: c in s ==>
               || 'A' <= c <= 'Z' || 'a' <= c <= 'z' || '0' <= c <= '9' || c == '-' || c == '.' || c == '_' || c == '~'
               || c == '$' || c == '&' || c == '+' || c == ':' || c == '=' || c == '@'
    ensures PathEscape(s) == s
  {
    if s != [] {
      assert s[0] in s && forall c :: c in s[1..] ==> c in s;
      PlainStays(s[1..]);
      assert s == [s[0]] + s[1..];
    }
  }

  // ----- the key is unescaped as a whole -----

  lemma SlashEndsEscapes(a: Text, b: Text)
    requires PathUnescape(a + ['/'] + b).Some?
    ensures PathUnescape(a).Some? && PathUnescape(b).Some?
  {
    var s := a + ['/'] + b;
    UnescapesExactlyWhen(s);
    UnescapesExactlyWhen(a);
    UnescapesExactlyWhen(b);
    forall i | 0 <= i < |a| && a[i] == '%' ensures i + 2 < |a| && Hex(a[i + 1]) && Hex(a[i + 2]) {
      assert s[i] == '%' && s[|a|] == '/';
      assert i + 2 < |s| && Hex(s[i + 1]) && Hex(s[i + 2]);
    }
    var k := |a| + 1;
    forall i | 0 <= i < |b| && b[i] == '%' ensures i + 2 < |b| && Hex(b[i + 1]) && Hex(b[i + 2]) {
      assert s[k + i] == '%';
      assert s[k + i + 1] == b[i + 1] && s[k + i + 2] == b[i + 2];
    }
  }

  lemma {:induction false} JoinedUnescapes(parts: seq<Text>)
    requires parts != [] && PathUnescape(Join(parts, '/')).Some?
    ensures UnescapeAll(parts).Some?
  {
    if |parts| > 1 {
      SlashEndsEscapes(parts[0], Join(parts[1..], '/'));
      JoinedUnescapes(parts[1..]);
    } else {
      assert parts[1..] == [] && Join(parts, '/') == parts[0];
    }
  }

  lemma KeyOfSegments(key: Text)
    ensures UnescapeKey(Split(key, '/')) == PathUnescape(key)
  {
    JoinOfSplit(key, '/');
    if UnescapeAll(Split(key, '/')).Some? { UnescapeOfJoin(Split(key, '/')); }
    else if PathUnescape(key).Some? { JoinedUnescapes(Split(key, '/')); }
  }

  // ----- which paths are accepted -----

  /** A slash, segments without slashes, and what follows the last of their slashes. */
  function Path1(a: Text, rest: Text): Text {
    ['/'] + (a + ['/'] + rest)
  }

  lemma CutsFirst(a: Text, rest: Text)
    requires '/' !in a
    ensures var p := Path1(a, rest); p[0] == '/' && Split(p[1..], '/') == [a] + Split(rest, '/')
  {
    var p := Path1(a, rest);
    assert p[1..] == a + ['/'] + rest;
    SplitAppend(a, rest, '/');
    SplitOne(a, '/');
  }

  lemma HasFirst(p: Text) returns (a: Text, rest: Text)
    requires p != [] && p[0] == '/' && |Split(p[1..], '/')| >= 2
    ensures '/' !in a && p == Path1(a, rest) && Split(p[1..], '/') == [a] + Split(rest, '/')
  {
    var parts := Split(p[1..], '/');
    SplitIsClear(p[1..], '/');
    JoinOfSplit(p[1..], '/');
    a, rest := parts[0], Join(parts[1..], '/');
    SplitOfJoin(parts[1..], '/');
    assert p == ['/'] + p[1..] && parts == [a] + parts[1..];
  }

  lemma Rest(a: Text, parts: seq<Text>)
    ensures ([a] + parts)[0] == a && ([a] + parts)[1..] == parts
  {
  }

  /** A single-server path is accepted exactly if it is /bucket/key with both escaped correctly and not empty. */
  ghost predicate IsSingle(p: Text, o: Object) {
    && o.server == [] && o.bucket != [] && o.key != []
    && exists b: Text, k: Text :: '/' !in b && p == Path1(b, k) && PathUnescape(b) == Some(o.bucket) && PathUnescape(k) == Some(o.key)
  }

  lemma SingleAcceptsExactly(p: Text, o: Object)
    ensures ParseEscapedPath(p, Single) == Ok(o) <==> IsSingle(p, o)
  {
    if p != [] && p[0] == '/' && |Split(p[1..], '/')| >= 2 {
      var b, k := HasFirst(p);
      Rest(b, Split(k, '/'));
      KeyOfSegments(k);
    }
    if IsSingle(p, o) {
      var b: Text, k: Text :| '/' !in b && p == Path1(b, k) && PathUnescape(b) == Some(o.bucket) && PathUnescape(k) == Some(o.key);
      CutsFirst(b, k);
      Rest(b, Split(k, '/'));
      KeyOfSegments(k);
    }
  }

  /** A multi-server path exactly if it is /server/bucket/key, the server an alias. */
  ghost predicate IsMulti(p: Text, o: Object) {
    && ValidAlias(o.server) && o.bucket != [] && o.key != []
    && exists s: Text, b: Text, k: Text :: '/' !in s && '/' !in b && p == Path1(s, b + ['/'] + k)
                         && PathUnescape(s) == Some(o.server) && PathUnescape(b) == Some(o.bucket) && PathUnescape(k) == Some(o.key)
  }

  lemma CutsTwo(s: Text, b: Text, k: Text)
    requires '/' !in s && '/' !in b
    ensures var p := Path1(s, b + ['/'] + k); p[0] == '/' && Split(p[1..], '/') == [s, b] + Split(k, '/')
    ensures var parts := [s, b] + Split(k, '/'); parts[0] == s && parts[1] == b && parts[2..] == Split(k, '/')
  {
    CutsFirst(s, b + ['/'] + k);
    SplitAppend(b, k, '/');
    SplitOne(b, '/');
  }

  lemma HasTwo(p: Text) returns (s: Text, b: Text, k: Text)
    requires p != [] && p[0] == '/' && |Split(p[1..], '/')| >= 3
    ensures '/' !in s && '/' !in b && p == Path1(s, b + ['/'] + k)
  {
    var rest;
    s, rest := HasFirst(p);
    var q := ['/'] + rest;
    assert q[1..] == rest;
    b, k := HasFirst(q);
    assert rest == b + ['/'] + k;
  }

  /** What the parser makes of such a path. */
  lemma ParsedMulti(s: Text, b: Text, k: Text)
    requires '/' !in s && '/' !in b
    ensures ParseEscapedPath(Path1(s, b + ['/'] + k), Multi) ==
            if s == [] then Err(MissingServer) else if b == [] then Err(EmptyBucket)
            else match PathUnescape(s)
                 case None => Err(BadEscape)
                 case Some(server) =>
                   if !ValidAlias(server) then Err(BadAlias)
                   else match PathUnescape(b)
                        case None => Err(BadEscape)
                        case Some(bucket) =>
                          match PathUnescape(k)
                          case None => Err(BadEscape)
                          case Some(key) => if bucket == [] then Err(EmptyBucket) else if key == [] then Err(EmptyKey) else Ok(Object(server, bucket, key))
  {
    CutsTwo(s, b, k);
    KeyOfSegments(k);
  }

  lemma MultiAcceptsExactly(p: Text, o: Object)
    ensures ParseEscapedPath(p, Multi) == Ok(o) <==> IsMulti(p, o)
  {
    if ParseEscapedPath(p, Multi) == Ok(o) {
      LongEnough(p, o);
      var s, b, k := HasTwo(p);
      ParsedMulti(s, b, k);
    }
    if IsMulti(p, o) {
      var s: Text, b: Text, k: Text :| '/' !in s && '/' !in b && p == Path1(s, b + ['/'] + k)
                     && PathUnescape(s) == Some(o.server) && PathUnescape(b) == Some(o.bucket) && PathUnescape(k) == Some(o.key);
      AliasUnescapes(s, o.server);
      NotBlank(b, o.bucket);
      ParsedMulti(s, b, k);
    }
  }

  lemma LongEnough(p: Text, o: Object)
    requires ParseEscapedPath(p, Multi) == Ok(o)
    ensures p != [] && p[0] == '/' && |Split(p[1..], '/')| >= 3
  {
  }

  lemma NotBlank(s: Text, t: Text)
    requires PathUnescape(s) == Some(t) && t != []
    ensures s != []
  {
  }

  lemma AliasUnescapes(s: Text, t: Text)
    requires PathUnescape(s) == Some(t) && ValidAlias(t)
    ensures s != []
  {
  }

  /** With a default bucket, exactly /key, or /server/key. */
  lemma DefaultAcceptsExactly(p: Text, o: Object, resolve: Text -> Option<Text>)
    requires resolve([]).Some? && resolve([]).value != []
    ensures ParseEscapedPathWithDefaultBucket(p, Single, resolve) == Ok(o) <==>
              && o.server == [] && resolve([]) == Some(o.bucket) && o.key != []
              && p != [] && p[0] == '/' && PathUnescape(p[1..]) == Some(o.key)
  {
    if p != [] && p[0] == '/' {
      KeyOfSegments(p[1..]);
      if p == ['/'] { assert p[1..] == []; } else { assert p == ['/'] + p[1..]; }
    }
  }

  ghost predicate IsMultiDefault(p: Text, o: Object) {
    && ValidAlias(o.server) && o.key != []
    && exists s: Text, k: Text :: '/' !in s && p == Path1(s, k) && PathUnescape(s) == Some(o.server) && PathUnescape(k) == Some(o.key)
  }

  lemma MultiDefaultAcceptsExactly(p: Text, o: Object, resolve: Text -> Option<Text>)
    requires resolve(o.server).Some? && resolve(o.server).value != []
    ensures ParseEscapedPathWithDefaultBucket(p, Multi, resolve) == Ok(o) <==> resolve(o.server) == Some(o.bucket) && IsMultiDefault(p, o)
  {
    if p != [] && p[0] == '/' && |Split(p[1..], '/')| >= 2 {
      var s, k := HasFirst(p);
      Rest(s, Split(k, '/'));
      KeyOfSegments(k);
    }
    if IsMultiDefault(p, o) {
      var s: Text, k: Text :| '/' !in s && p == Path1(s, k) && PathUnescape(s) == Some(o.server) && PathUnescape(k) == Some(o.key);
      CutsFirst(s, k);
      Rest(s, Split(k, '/'));
      KeyOfSegments(k);
      AliasUnescapes(s, o.server);
    }
    if ParseMultiDefault(p, resolve) == Ok(o) { ParsedServer(p, o, resolve); }
  }

  /** The server that was parsed is the one that was resolved. */
  lemma ParsedServer(p: Text, o: Object, resolve: Text -> Option<Text>)
    requires resolve(o.server).Some? && ParseMultiDefault(p, resolve) == Ok(o)
    ensures p != [] && p[0] == '/' && PathUnescape(Split(p[1..], '/')[0]) == Some(o.server)
    ensures |Split(p[1..], '/')| >= 2 && resolve(o.server) == Some(o.bucket)
  {
  }

  /** A resolver without a bucket for the server leaves the plain parser in charge: what the plain printer prints is read
      back exactly when the key has no empty segment. */
  lemma FallbackRoundTrip(o: Object, mode: Mode, resolve: Text -> Option<Text>)
    requires o.bucket != [] && o.key != [] && if mode.Multi? then ValidAlias(o.server) else o.server == []
    requires resolve(o.server).None?
    ensures ParseEscapedPathWithDefaultBucket(AppendObjectPath([], o, mode), mode, resolve) == Ok(o) <==> NoEmptySegments(o.key)
  {
    PathRoundTrip(o, mode);
    if mode.Multi? { FallsBack(o, resolve); }
  }

  lemma FallsBack(o: Object, resolve: Text -> Option<Text>)
    requires o.bucket != [] && ValidAlias(o.server) && resolve(o.server).None?
    ensures var p := AppendObjectPath([], o, Multi); ParseMultiDefault(p, resolve) == ParseEscapedPath(p, Multi)
  {
    PrintedParts([o.server, o.bucket], o.key);
    PrintedSplits([o.server, o.bucket], o.key);
    var parts := EscapeAll([o.server, o.bucket]) + EscapeAll(NonEmpty(Split(o.key, '/')));
    var p := AppendObjectPath([], o, Multi);
    SamePath([PathEscape(o.server)], [PathEscape(o.bucket)], EscapeAll([o.server, o.bucket]), EscapeAll(Split(o.key, '/')));
    assert p[1..] == Join(parts, '/');
    UnescapeOfEscape(o.server);
    assert parts[0] == PathEscape(o.server);
  }

  // ----- a base path -----

  predicate Bare(s: Text) {
    s == [] || (s[0] != '/' && s[|s| - 1] != '/')
  }

  predicate Slashes(s: Text) {
    forall i :: 0 <= i < |s| ==> s[i] == '/'
  }

  lemma {:induction false} TrimmedBase(a: Text, base: Text, b: Text)
    requires Slashes(a) && Bare(base) && Slashes(b)
    ensures TrimSlashes(a + base + b) == base
    decreases |a| + |b|
  {
    var s := a + base + b;
    if a != [] {
      TrimmedBase(a[1..], base, b);
      assert s[0] == '/' && s[1..] == a[1..] + base + b;
    } else if b != [] {
      assert s[|s| - 1] == '/' && s[..|s| - 1] == a + base + b[..|b| - 1];
      if base == [] {
        assert s[0] == '/' && s[1..] == a + base + b[1..];
        TrimmedBase(a, base, b[1..]);
      } else {
        TrimmedBase(a, base, b[..|b| - 1]);
        assert s[0] == base[0];
      }
    } else {
      assert s == base;
    }
  }

  /** A base path goes in front of the printed path, whatever slashes surround it. */
  lemma BaseIsPrefixed(a: Text, base: Text, b: Text, o: Object, mode: Mode)
    requires Slashes(a) && Bare(base) && Slashes(b) && o.bucket != []
    ensures AppendObjectPath(a + base + b, o, mode) ==
            if base == [] then AppendObjectPath([], o, mode) else ['/'] + base + AppendObjectPath([], o, mode)
  {
    TrimmedBase(a, base, b);
    var server: seq<Text> := if mode.Multi? then [PathEscape(o.server)] else [];
    var tail := server + [PathEscape(o.bucket)] + EscapeAll(Split(o.key, '/'));
    Regrouped(base, server, [PathEscape(o.bucket)], EscapeAll(Split(o.key, '/')));
    Regrouped([], server, [PathEscape(o.bucket)], EscapeAll(Split(o.key, '/')));
    BlankDropped(tail);
    if base != [] {
      assert ([base] + tail)[1..] == tail && [base] + NonEmpty(tail) == NonEmpty([base] + tail);
      UnescapeOfEscape(o.bucket);
      StillSome(server, PathEscape(o.bucket), EscapeAll(Split(o.key, '/')));
      assert ([base] + NonEmpty(tail))[1..] == NonEmpty(tail);
    }
  }

  lemma Regrouped(x: Text, server: seq<Text>, bucket: seq<Text>, rest: seq<Text>)
    ensures [x] + server + bucket + rest == [x] + (server + bucket + rest)
  {
  }

  lemma StillSome(a: seq<Text>, x: Text, b: seq<Text>)
    requires x != []
    ensures NonEmpty(a + [x] + b) != []
  {
    NonEmptyAppend(a + [x], b);
    NonEmptyAppend(a, [x]);
    assert NonEmpty([x]) == [x] + NonEmpty([x][1..]);
  }

  // ----- path.Clean -----

  lemma {:induction false} CleanAppend(a: seq<Text>, b: seq<Text>, stack: seq<Text>)
    ensures Clean(a + b, stack) == Clean(b, Clean(a, stack))
    decreases |a|
  {
    if a == [] {
      assert a + b == b;
    } else {
      assert (a + b)[0] == a[0] && (a + b)[1..] == a[1..] + b;
      var next := if a[0] == [] || a[0] == DOT then stack
                  else if a[0] == DOTDOT then if stack == [] then [] else stack[..|stack| - 1]
                  else stack + [a[0]];
      CleanAppend(a[1..], b, next);
    }
  }

  predicate Dull(x: Text) {
    x == [] || x == "." || x == ".."
  }

  lemma CleanOne(x: Text, stack: seq<Text>)
    ensures x == [] || x == "." ==> Clean([x], stack) == stack
    ensures x == ".." ==> Clean([x], stack) == if stack == [] then [] else stack[..|stack| - 1]
    ensures !Dull(x) ==> Clean([x], stack) == stack + [x]
  {
    assert [x][1..] == [];
  }

  /** The rules of path.Clean for rooted paths, which together decide it: empty and dot elements go; a dot-dot element goes
      with the element before it, or alone at the root; anything else stays. */
  lemma CleanFollowsItsRules(a: seq<Text>, x: Text, b: seq<Text>)
    ensures Clean(a + [[]] + b, []) == Clean(a + ["."] + b, []) == Clean(a + b, [])
    ensures !Dull(x) ==> Clean(a + [x, ".."] + b, []) == Clean(a + b, [])
    ensures Clean([".."] + b, []) == Clean(b, [])
    ensures (forall i :: 0 <= i < |a| ==> !Dull(a[i])) ==> Clean(a, []) == a
  {
    var stack := Clean(a, []);
    CleanAppend(a, b, []);
    CleanAppend(a + [[]], b, []);
    CleanAppend(a, [[]], []);
    CleanOne([], stack);
    CleanAppend(a + ["."], b, []);
    CleanAppend(a, ["."], []);
    CleanOne(".", stack);
    CleanAppend([".."], b, []);
    CleanOne("..", []);
    if !Dull(x) { UpAndDown(a, x, b); }
    if forall i :: 0 <= i < |a| ==> !Dull(a[i]) {
      CleanKeepsOrdinary(a, []);
      assert [] + a == a;
    }
  }

  lemma UpAndDown(a: seq<Text>, x: Text, b: seq<Text>)
    requires !Dull(x)
    ensures Clean(a + [x, ".."] + b, []) == Clean(b, Clean(a, []))
  {
    var stack := Clean(a, []);
    CleanAppend(a + [x, ".."], b, []);
    CleanAppend(a, [x, ".."], []);
    assert [x, ".."] == [x] + [".."];
    CleanAppend([x], [".."], stack);
    CleanOne(x, stack);
    CleanOne("..", stack + [x]);
    assert (stack + [x])[..|stack|] == stack;
  }

  lemma {:induction false} CleanedElements(parts: seq<Text>, stack: seq<Text>)
    requires Clear(parts, '/') && Clear(stack, '/') && Ordinary(stack)
    ensures Clear(Clean(parts, stack), '/') && Ordinary(Clean(parts, stack))
    decreases |parts|
  {
    if parts != [] {
      var next := if parts[0] == [] || parts[0] == DOT then stack
                  else if parts[0] == DOTDOT then if stack == [] then [] else stack[..|stack| - 1]
                  else stack + [parts[0]];
      CleanedElements(parts[1..], next);
    }
  }

  /** objectFromPath reads bucket and key off the cleaned elements: the first, and all the others. */
  lemma SignedObjectIs(p: Text, bucket: Text, key: Text)
    ensures ObjectFromPath(p) == Ok((bucket, key)) <==>
            var es := Clean(Split(['/'] + p, '/'), []);
            |es| >= 2 && PathUnescape(es[0]) == Some(bucket) && PathUnescape(Join(es[1..], '/')) == Some(key)
  {
    SplitIsClear(['/'] + p, '/');
    CleanedElements(Split(['/'] + p, '/'), []);
    var es := Clean(Split(['/'] + p, '/'), []);
    if |es| >= 2 {
      CutOfGlued(es[0], Join(es[1..], '/'), '/');
      NotEmpty(es[1..]);
    } else if |es| == 1 {
      NoCut(es[0], '/');
    }
  }

  lemma {:induction false} NoCut(s: Text, sep: Octet)
    requires sep !in s
    ensures Cut(s, sep) == (s, [])
  {
    if s != [] {
      NoCut(s[1..], sep);
      assert s == [s[0]] + s[1..];
    }
  }
}
