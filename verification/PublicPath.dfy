/** Public object paths: the printers of internal/signing/hmac.go and the parsers of internal/publicpath/publicpath.go
    and internal/signing/hmac.go (escaping of section 2.1 of RFC 3986). */
module PublicPath {
  import opened Octets
  import opened Strings
  import opened Names
  import UE = UriEncoding

  // ----- one segment -----

  /** What url.PathEscape leaves alone. */
  predicate PathPlain(c: Octet) {
    UE.IsUnreserved(c) || c == '$' || c == '&' || c == '+' || c == ':' || c == '=' || c == '@'
  }

  function PathEscape(s: Text): Text {
    if s == [] then []
    else (if PathPlain(s[0]) then [s[0]] else UE.Escape(s[0])) + PathEscape(s[1..])
  }

  function PathUnescape(s: Text): Option<Text> {
    if s == [] then Some([])
    else if s[0] == '%' then
      if !UE.StartsEscaped(s) then None
      else match PathUnescape(s[3..])
           case None => None
           case Some(t) => Some([(UE.HexValue(s[1]) * 16 + UE.HexValue(s[2])) as char] + t)
    else
      match PathUnescape(s[1..])
      case None => None
      case Some(t) => Some([s[0]] + t)
  }

  lemma {:induction false} UnescapeOfEscape(s: Text)
    ensures PathUnescape(PathEscape(s)) == Some(s)
    ensures '/' !in PathEscape(s) && (PathEscape(s) == [] <==> s == [])
  {
    if s != [] {
      UnescapeOfEscape(s[1..]);
      var t := PathEscape(s[1..]);
      if PathPlain(s[0]) { assert ([s[0]] + t)[1..] == t; } else { UE.AfterEscape(UE.Escape(s[0]), t); }
      assert s == [s[0]] + s[1..];
    }
  }

  // ----- printers -----

  datatype Object = Object(server: Text, bucket: Text, key: Text)

  datatype Mode = Single | Multi

  function EscapeAll(parts: seq<Text>): (r: seq<Text>)
    ensures |r| == |parts| && forall i :: 0 <= i < |r| ==> r[i] == PathEscape(parts[i])
  {
    if parts == [] then [] else [PathEscape(parts[0])] + EscapeAll(parts[1..])
  }

  function NonEmpty(parts: seq<Text>): seq<Text> {
    if parts == [] then []
    else (if parts[0] == [] then [] else [parts[0]]) + NonEmpty(parts[1..])
  }

  function TrimSlashes(s: Text): Text {
    if s != [] && s[0] == '/' then TrimSlashes(s[1..])
    else if s != [] && s[|s| - 1] == '/' then TrimSlashes(s[..|s| - 1])
    else s
  }

  /** appendObjectPath. */
  function AppendObjectPath(basePath: Text, o: Object, mode: Mode): Text {
    var server: seq<Text> := if mode.Multi? then [PathEscape(o.server)] else [];
    ['/'] + Join(NonEmpty([TrimSlashes(basePath)] + server + [PathEscape(o.bucket)] + EscapeAll(Split(o.key, '/'))), '/')
  }

  /** appendDefaultBucketObjectPath. */
  function AppendDefaultBucketObjectPath(basePath: Text, o: Object): Text {
    ['/'] + Join(NonEmpty([TrimSlashes(basePath)] + [PathEscape(o.server)] + EscapeAll(Split(o.key, '/'))), '/')
  }

  // ----- parsers -----

  datatype Fault =
    | NoLeadingSlash | MissingServer | BadAlias | MissingBucket | EmptyBucket | MissingKey | EmptyKey
    | BadEscape | EmptyDefaultBucket

  function UnescapeAll(parts: seq<Text>): (r: Option<seq<Text>>)
    ensures r.Some? ==> |r.value| == |parts| && forall i :: 0 <= i < |parts| ==> PathUnescape(parts[i]) == Some(r.value[i])
  {
    if parts == [] then Some([])
    else
      match (PathUnescape(parts[0]), UnescapeAll(parts[1..]))
      case (Some(x), Some(xs)) => Some([x] + xs)
      case _ => None
  }

  function UnescapeKey(parts: seq<Text>): Option<Text> {
    match UnescapeAll(parts)
    case None => None
    case Some(xs) => Some(Join(xs, '/'))
  }

  /** The end of every parser: the key from the remaining segments. */
  function WithKey(server: Text, bucket: Text, segments: seq<Text>): Result<Object, Fault> {
    match UnescapeKey(segments)
    case None => Err(BadEscape)
    case Some(key) =>
      if bucket == [] then Err(EmptyBucket) else if key == [] then Err(EmptyKey) else Ok(Object(server, bucket, key))
  }

  function ParseSingle(parts: seq<Text>): Result<Object, Fault>
    requires parts != []
  {
    if parts == [[]] then Err(MissingBucket)
    else if parts[0] == [] then Err(EmptyBucket)
    else if |parts| < 2 then Err(MissingKey)
    else
      match PathUnescape(parts[0])
      case None => Err(BadEscape)
      case Some(bucket) => WithKey([], bucket, parts[1..])
  }

  function ParseMulti(parts: seq<Text>): Result<Object, Fault>
    requires parts != []
  {
    if parts[0] == [] then Err(MissingServer)
    else if |parts| < 2 then Err(MissingBucket)
    else if parts[1] == [] then Err(EmptyBucket)
    else if |parts| < 3 then Err(MissingKey)
    else
      match PathUnescape(parts[0])
      case None => Err(BadEscape)
      case Some(server) =>
        if !ValidAlias(server) then Err(BadAlias)
        else
          match PathUnescape(parts[1])
          case None => Err(BadEscape)
          case Some(bucket) => WithKey(server, bucket, parts[2..])
  }

  /** ParseEscapedPath. */
  function ParseEscapedPath(p: Text, mode: Mode): Result<Object, Fault> {
    if p == [] || p[0] != '/' then Err(NoLeadingSlash)
    else if mode.Single? then ParseSingle(Split(p[1..], '/'))
    else ParseMulti(Split(p[1..], '/'))
  }

  /** parseSingleEscapedPathWithDefaultBucket. */
  function ParseSingleDefault(p: Text, resolve: Text -> Option<Text>): Result<Object, Fault> {
    match resolve([])
    case None => ParseEscapedPath(p, Single)
    case Some(bucket) =>
      if bucket == [] then Err(EmptyDefaultBucket)
      else if p == [] || p[0] != '/' then Err(NoLeadingSlash)
      else if p == ['/'] then Err(MissingKey)
      else WithKey([], bucket, Split(p[1..], '/'))
  }

  /** parseMultiEscapedPathWithDefaultBucket. */
  function ParseMultiDefault(p: Text, resolve: Text -> Option<Text>): Result<Object, Fault> {
    if p == [] || p[0] != '/' then Err(NoLeadingSlash)
    else
      var parts := Split(p[1..], '/');
      if parts[0] == [] then Err(MissingServer)
      else
        match PathUnescape(parts[0])
        case None => Err(BadEscape)
        case Some(server) =>
          if !ValidAlias(server) then Err(BadAlias)
          else
            match resolve(server)
            case None => ParseEscapedPath(p, Multi)
            case Some(bucket) =>
              if bucket == [] then Err(EmptyDefaultBucket)
              else if |parts| < 2 then Err(MissingKey)
              else WithKey(server, bucket, parts[1..])
  }

  function ParseEscapedPathWithDefaultBucket(p: Text, mode: Mode, resolve: Text -> Option<Text>): Result<Object, Fault> {
    if mode.Single? then ParseSingleDefault(p, resolve) else ParseMultiDefault(p, resolve)
  }

  // ----- round trips -----

  lemma GlueParts(a: seq<Text>, b: seq<Text>, c: seq<Text>)
    ensures a + b + c == a + (b + c)
  {
  }

  lemma {:induction false} NonEmptyAppend(a: seq<Text>, b: seq<Text>)
    ensures NonEmpty(a + b) == NonEmpty(a) + NonEmpty(b)
  {
    if a == [] {
      assert a + b == b;
    } else {
      NonEmptyAppend(a[1..], b);
      assert (a + b)[1..] == a[1..] + b && (a + b)[0] == a[0];
      GlueParts(if a[0] == [] then [] else [a[0]], NonEmpty(a[1..]), NonEmpty(b));
    }
  }

  lemma {:induction false} NonEmptyIs(parts: seq<Text>)
    ensures forall x :: x in NonEmpty(parts) ==> x != [] && x in parts
    ensures (forall x :: x in parts ==> x != []) ==> NonEmpty(parts) == parts
  {
    if parts != [] {
      NonEmptyIs(parts[1..]);
      assert parts == [parts[0]] + parts[1..];
      assert forall x :: x in parts[1..] ==> x in parts;
      assert parts[0] in parts;
    }
  }

  /** Escaping commutes with dropping the empty segments. */
  lemma {:induction false} NonEmptyEscaped(parts: seq<Text>)
    ensures NonEmpty(EscapeAll(parts)) == EscapeAll(NonEmpty(parts))
  {
    if parts != [] {
      NonEmptyEscaped(parts[1..]);
      UnescapeOfEscape(parts[0]);
      var rest := NonEmpty(parts[1..]);
      assert EscapeAll(parts)[1..] == EscapeAll(parts[1..]);
      if parts[0] != [] { assert ([parts[0]] + rest)[1..] == rest; }
    }
  }

  lemma {:induction false} UnescapeAllOfEscapeAll(parts: seq<Text>)
    ensures UnescapeAll(EscapeAll(parts)) == Some(parts)
  {
    if parts != [] {
      UnescapeAllOfEscapeAll(parts[1..]);
      UnescapeOfEscape(parts[0]);
      assert EscapeAll(parts)[1..] == EscapeAll(parts[1..]);
      assert parts == [parts[0]] + parts[1..];
    }
  }

  /** What a printed path says of a key: the key without its empty segments. */
  function Squeezed(key: Text): Text {
    Join(NonEmpty(Split(key, '/')), '/')
  }

  predicate NoEmptySegments(key: Text) {
    [] !in Split(key, '/')
  }

  lemma SqueezedIs(key: Text)
    ensures NoEmptySegments(key) ==> Squeezed(key) == key
    ensures Squeezed(key) == key && key != [] ==> NoEmptySegments(key)
    ensures Squeezed(key) == [] <==> NonEmpty(Split(key, '/')) == []
  {
    var parts := Split(key, '/');
    NonEmptyIs(parts);
    JoinOfSplit(key, '/');
    SplitIsClear(key, '/');
    var ps := NonEmpty(parts);
    if ps != [] {
      forall i | 0 <= i < |ps| ensures '/' !in ps[i] && ps[i] != [] { assert ps[i] in ps; }
      SplitOfJoin(ps, '/');
      assert ps[0] in Split(Squeezed(key), '/');
      assert Split([], '/') == [[]];
    }
  }

  lemma EscapedIsNonEmpty(front: seq<Text>)
    requires forall i :: 0 <= i < |front| ==> front[i] != []
    ensures NonEmpty(EscapeAll(front)) == EscapeAll(front)
  {
    forall x | x in EscapeAll(front) ensures x != [] {
      var i :| 0 <= i < |front| && x == PathEscape(front[i]);
      UnescapeOfEscape(front[i]);
    }
    NonEmptyIs(EscapeAll(front));
  }

  lemma BlankDropped(parts: seq<Text>)
    ensures var blank: seq<Text> := [[]]; NonEmpty(blank + parts) == NonEmpty(parts)
  {
    var blank: seq<Text> := [[]];
    assert (blank + parts)[1..] == parts;
    var none: seq<Text> := [];
    assert none + NonEmpty(parts) == NonEmpty(parts);
  }

  lemma EscapedIsClear(parts: seq<Text>)
    ensures Clear(EscapeAll(parts), '/')
  {
    forall i | 0 <= i < |parts| ensures '/' !in EscapeAll(parts)[i] { UnescapeOfEscape(parts[i]); }
  }

  /** A printed path consists of the escaped names and the escaped non-empty segments of the key. */
  lemma PrintedParts(front: seq<Text>, key: Text)
    requires forall i :: 0 <= i < |front| ==> front[i] != []
    ensures var blank: seq<Text> := [[]];
            NonEmpty(blank + EscapeAll(front) + EscapeAll(Split(key, '/'))) == EscapeAll(front) + EscapeAll(NonEmpty(Split(key, '/')))
  {
    var segments := EscapeAll(Split(key, '/'));
    var blank: seq<Text> := [[]];
    NonEmptyAppend(blank + EscapeAll(front), segments);
    BlankDropped(EscapeAll(front));
    EscapedIsNonEmpty(front);
    NonEmptyEscaped(Split(key, '/'));
  }

  /** It splits into them again. */
  lemma PrintedSplits(front: seq<Text>, key: Text)
    requires front != [] || NonEmpty(Split(key, '/')) != []
    ensures var parts := EscapeAll(front) + EscapeAll(NonEmpty(Split(key, '/'))); Split(Join(parts, '/'), '/') == parts
  {
    EscapedIsClear(front);
    EscapedIsClear(NonEmpty(Split(key, '/')));
    SplitOfJoin(EscapeAll(front) + EscapeAll(NonEmpty(Split(key, '/'))), '/');
  }

  /** The key of a printed path. */
  lemma KeyReturns(server: Text, bucket: Text, key: Text)
    requires bucket != [] && Squeezed(key) != []
    ensures WithKey(server, bucket, EscapeAll(NonEmpty(Split(key, '/')))) == Ok(Object(server, bucket, Squeezed(key)))
  {
    UnescapeAllOfEscapeAll(NonEmpty(Split(key, '/')));
  }

  /** For every object with a bucket, ParseEscapedPath on its printed path returns the object with the empty
      segments dropped from its key, or an error when nothing else is left. */
  lemma SinglePathReturns(o: Object)
    requires o.bucket != [] && o.server == []
    ensures ParseEscapedPath(AppendObjectPath([], o, Single), Single) ==
            if Squeezed(o.key) == [] then Err(MissingKey) else Ok(o.(key := Squeezed(o.key)))
  {
    PrintedParts([o.bucket], o.key);
    PrintedSplits([o.bucket], o.key);
    var tail := EscapeAll(NonEmpty(Split(o.key, '/')));
    var parts := EscapeAll([o.bucket]) + tail;
    var p := AppendObjectPath([], o, Single);
    SamePath([], [PathEscape(o.bucket)], EscapeAll([o.bucket]), EscapeAll(Split(o.key, '/')));
    assert p[1..] == Join(parts, '/');
    UnescapeOfEscape(o.bucket);
    SqueezedIs(o.key);
    assert parts[1..] == tail;
    if Squeezed(o.key) != [] {
      KeyReturns([], o.bucket, o.key);
    }
  }

  /** The same list of segments, however it was put together. */
  lemma SamePath(server: seq<Text>, bucket: seq<Text>, front: seq<Text>, rest: seq<Text>)
    requires front == server + bucket
    ensures var none: seq<Text> := [[]]; none + server + bucket + rest == none + front + rest
  {
  }

  lemma MultiPathReturns(o: Object)
    requires o.bucket != [] && ValidAlias(o.server)
    ensures ParseEscapedPath(AppendObjectPath([], o, Multi), Multi) ==
            if Squeezed(o.key) == [] then Err(MissingKey) else Ok(o.(key := Squeezed(o.key)))
  {
    PrintedParts([o.server, o.bucket], o.key);
    PrintedSplits([o.server, o.bucket], o.key);
    var tail := EscapeAll(NonEmpty(Split(o.key, '/')));
    var parts := EscapeAll([o.server, o.bucket]) + tail;
    var p := AppendObjectPath([], o, Multi);
    SamePath([PathEscape(o.server)], [PathEscape(o.bucket)], EscapeAll([o.server, o.bucket]), EscapeAll(Split(o.key, '/')));
    assert p[1..] == Join(parts, '/');
    UnescapeOfEscape(o.server);
    UnescapeOfEscape(o.bucket);
    SqueezedIs(o.key);
    assert parts[2..] == tail;
    if Squeezed(o.key) != [] {
      KeyReturns(o.server, o.bucket, o.key);
    }
  }

  /** ParseEscapedPath inverts appendObjectPath exactly on the objects whose key has no empty segment; every valid
      key is one of them. */
  lemma PathRoundTrip(o: Object, mode: Mode)
    requires o.bucket != [] && o.key != [] && if mode.Multi? then ValidAlias(o.server) else o.server == []
    ensures ParseEscapedPath(AppendObjectPath([], o, mode), mode) == Ok(o) <==> NoEmptySegments(o.key)
    ensures ValidKey(o.key) ==> NoEmptySegments(o.key)
  {
    SqueezedIs(o.key);
    if mode.Single? { SinglePathReturns(o); } else { MultiPathReturns(o); }
  }

  /** The same for the printer that leaves the bucket out, when the resolver supplies that bucket. */
  lemma DefaultBucketRoundTrip(o: Object, mode: Mode, resolve: Text -> Option<Text>)
    requires o.bucket != [] && o.key != [] && if mode.Multi? then ValidAlias(o.server) else o.server == []
    requires resolve(o.server) == Some(o.bucket)
    ensures ParseEscapedPathWithDefaultBucket(AppendDefaultBucketObjectPath([], o), mode, resolve) == Ok(o) <==> NoEmptySegments(o.key)
  {
    SqueezedIs(o.key);
    if mode.Single? { SingleDefaultReturns(o, resolve); } else { MultiDefaultReturns(o, resolve); }
  }

  lemma SingleDefaultReturns(o: Object, resolve: Text -> Option<Text>)
    requires o.bucket != [] && o.server == [] && resolve([]) == Some(o.bucket)
    ensures ParseSingleDefault(AppendDefaultBucketObjectPath([], o), resolve) ==
            if Squeezed(o.key) == [] then Err(MissingKey) else Ok(o.(key := Squeezed(o.key)))
  {
    SqueezedIs(o.key);
    PrintedParts([], o.key);
    var tail, segments := EscapeAll(NonEmpty(Split(o.key, '/'))), EscapeAll(Split(o.key, '/'));
    TwoBlanks(segments, tail);
    var p := AppendDefaultBucketObjectPath([], o);
    assert p[1..] == Join(tail, '/');
    if Squeezed(o.key) != [] {
      ParsedSingleDefault(p, o, tail, resolve);
    } else {
      assert p == ['/'];
    }
  }

  lemma ParsedSingleDefault(p: Text, o: Object, tail: seq<Text>, resolve: Text -> Option<Text>)
    requires o.bucket != [] && o.server == [] && resolve([]) == Some(o.bucket) && Squeezed(o.key) != []
    requires tail == EscapeAll(NonEmpty(Split(o.key, '/'))) && p == ['/'] + Join(tail, '/')
    ensures ParseSingleDefault(p, resolve) == Ok(o.(key := Squeezed(o.key)))
  {
    assert p[1..] == Join(tail, '/') && EscapeAll([]) + tail == tail;
    PrintedSplits([], o.key);
    NotBare(tail);
    KeyReturns([], o.bucket, o.key);
    assert ParseSingleDefault(p, resolve) == WithKey([], o.bucket, tail);
  }

  lemma TwoBlanks(segments: seq<Text>, tail: seq<Text>)
    ensures var blank: seq<Text> := [[]];
            NonEmpty(blank + EscapeAll([]) + segments) == EscapeAll([]) + tail ==> NonEmpty(blank + blank + segments) == tail
    ensures EscapeAll([]) + tail == tail
  {
    var blank: seq<Text> := [[]];
    assert blank + EscapeAll([]) + segments == blank + segments;
    assert blank + blank + segments == blank + (blank + segments);
    BlankDropped(blank + segments);
    BlankDropped(segments);
  }

  lemma NotBare(parts: seq<Text>)
    requires parts != [] && Split(Join(parts, '/'), '/') == parts && parts != [[]]
    ensures ['/'] + Join(parts, '/') != ['/']
  {
    assert Split([], '/') == [[]];
  }

  lemma MultiDefaultReturns(o: Object, resolve: Text -> Option<Text>)
    requires o.bucket != [] && ValidAlias(o.server) && resolve(o.server) == Some(o.bucket)
    ensures ParseMultiDefault(AppendDefaultBucketObjectPath([], o), resolve) ==
            if Squeezed(o.key) == [] then Err(MissingKey) else Ok(o.(key := Squeezed(o.key)))
  {
    SqueezedIs(o.key);
    PrintedParts([o.server], o.key);
    PrintedSplits([o.server], o.key);
    var tail := EscapeAll(NonEmpty(Split(o.key, '/')));
    var parts := EscapeAll([o.server]) + tail;
    var p := AppendDefaultBucketObjectPath([], o);
    assert EscapeAll([o.server]) == [PathEscape(o.server)];
    assert p[1..] == Join(parts, '/');
    UnescapeOfEscape(o.server);
    assert parts[1..] == tail;
    if Squeezed(o.key) != [] {
      KeyReturns(o.server, o.bucket, o.key);
    }
  }
}
