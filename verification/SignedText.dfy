/** The text under the signature of a public URL (internal/signing/hmac.go, claimsFromInput and canonicalString). */
module SignedText {
  import opened Octets
  import opened Decimals
  import opened Strings
  import opened Names
  import opened PublicPath
  import Runes
  import CP = CodePoints

  datatype Claims = Claims(
      verb: Text, server: Text, bucket: Text, key: Text, expires: int,
      range: Text, contentType: Text, disposition: Text)

  const GET: Text := "GET"
  const HEAD: Text := "HEAD"

  function ToUpper(s: Text): (r: Text)
    ensures |r| == |s|
  {
    if s == [] then [] else [if 'a' <= s[0] <= 'z' then (s[0] as int - 32) as char else s[0]] + ToUpper(s[1..])
  }

  datatype InputFault = BadMethod | BadServer | BadBucket | BadKey | NoExpiry

  /** claimsFromInput; the zero time is None. */
  function ClaimsFromInput(c: Claims, expires: Option<int>, mode: Mode): Result<Claims, InputFault> {
    var m := ToUpper(Runes.TrimSpace(c.verb));
    if m != GET && m != HEAD then Err(BadMethod)
    else if mode.Multi? && !ValidAlias(c.server) then Err(BadServer)
    else if !ValidBucket(c.bucket) then Err(BadBucket)
    else if !ValidKey(c.key) then Err(BadKey)
    else if expires.None? then Err(NoExpiry)
    else Ok(c.(verb := m, server := if mode.Multi? then c.server else [], expires := expires.value))
  }

  /** The claims that claimsFromInput returns. */
  predicate Accepted(c: Claims, mode: Mode) {
    && (c.verb == GET || c.verb == HEAD)
    && (if mode.Multi? then ValidAlias(c.server) else c.server == [])
    && ValidBucket(c.bucket) && ValidKey(c.key)
  }

  lemma UpperMethods()
    ensures ToUpper(GET) == GET && ToUpper(HEAD) == HEAD
  {
    assert GET == ['G', 'E', 'T'] && HEAD == ['H', 'E', 'A', 'D'];
    assert GET[1..][1..][1..] == [] && HEAD[1..][1..][1..][1..] == [];
  }

  /** Sprintf("%d"). */
  function Number(n: int): Text {
    if n < 0 then ['-'] + Decimal(-n) else Decimal(n)
  }

  function Fields(c: Claims): seq<Text> {
    var server: seq<Text> := if c.server == [] then [] else [c.server];
    [ToUpper(c.verb)] + server + [c.bucket, c.key, Number(c.expires), c.range, c.contentType, c.disposition]
  }

  /** canonicalString. */
  function Canonical(c: Claims): Text {
    Join(Fields(c), '\n')
  }

  // ----- numbers -----

  lemma DecimalInjective(m: nat, n: nat)
    requires Decimal(m) == Decimal(n)
    ensures m == n
  {
    DecimalReturns(m);
    DecimalReturns(n);
  }

  lemma NumberInjective(m: int, n: int)
    requires Number(m) == Number(n)
    ensures m == n
  {
    var s, t := Number(m), Number(n);
    assert m >= 0 ==> s[0] != '-';
    assert n >= 0 ==> t[0] != '-';
    if m < 0 {
      assert s[1..] == Decimal(-m) && t[1..] == Decimal(-n);
      DecimalInjective(-m, -n);
    } else {
      DecimalInjective(m, n);
    }
  }

  lemma NumberIsClear(n: int)
    ensures '\n' !in Number(n)
  {
  }

  // ----- the signed fields -----

  predicate OneLine(s: Text) {
    '\n' !in s
  }

  lemma FieldsAreClear(c: Claims, mode: Mode)
    requires Accepted(c, mode)
    ensures ToUpper(c.verb) == c.verb && OneLine(c.verb) && OneLine(c.server) && OneLine(c.bucket) && OneLine(c.key)
    ensures OneLine(Number(c.expires))
  {
    UpperMethods();
    KeyHasNoNewline(c.key);
    NumberIsClear(c.expires);
    AliasIsClear(c.server, mode);
    BucketIsClear(c.bucket);
    assert OneLine(GET) && OneLine(HEAD);
  }

  lemma AliasIsClear(s: Text, mode: Mode)
    requires if mode.Multi? then ValidAlias(s) else s == []
    ensures OneLine(s)
  {
  }

  lemma BucketIsClear(s: Text)
    requires ValidBucket(s)
    ensures OneLine(s)
  {
  }

  /** All fields but the last: the last one is the rest of the text, newlines included. */
  function Front(c: Claims): seq<Text> {
    Fields(c)[..|Fields(c)| - 1]
  }

  /** Splitting a joined text off its first clear parts. */
  lemma {:induction false} JoinSplits(front: seq<Text>, last: Text)
    requires Clear(front, '\n')
    ensures Split(Join(front + [last], '\n'), '\n') == front + Split(last, '\n')
  {
    if front == [] {
      assert front + [last] == [last] && front + Split(last, '\n') == Split(last, '\n');
    } else {
      var rest := front[1..] + [last];
      JoinSplits(front[1..], last);
      HeadOut(front, [last]);
      SplitOne(front[0], '\n');
      SplitAppend(front[0], Join(rest, '\n'), '\n');
      HeadOut(front, Split(last, '\n'));
    }
  }

  lemma SameFrontSameLast(front: seq<Text>, last: Text, front': seq<Text>, last': Text)
    requires Clear(front, '\n') && Clear(front', '\n') && |front| == |front'|
    requires Join(front + [last], '\n') == Join(front' + [last'], '\n')
    ensures front == front' && last == last'
  {
    JoinSplits(front, last);
    JoinSplits(front', last');
    var all := front + Split(last, '\n');
    assert front == all[..|front|] && front' == all[..|front|];
    assert Split(last, '\n') == all[|front|..] && Split(last', '\n') == all[|front|..];
    JoinOfSplit(last, '\n');
    JoinOfSplit(last', '\n');
  }

  predicate Plain(c: Claims) {
    OneLine(c.range) && OneLine(c.contentType)
  }

  lemma FrontIsClear(c: Claims, mode: Mode)
    requires Accepted(c, mode) && Plain(c)
    ensures Clear(Front(c), '\n') && Fields(c) == Front(c) + [c.disposition]
    ensures |Front(c)| == if mode.Multi? then 7 else 6
  {
    FieldsAreClear(c, mode);
  }

  /** Two accepted claims of the same mode without newlines in range and content type have the same signed text only
      if they are equal, whatever the content disposition contains. */
  lemma SignedTextIsInjective(c: Claims, d: Claims, mode: Mode)
    requires Accepted(c, mode) && Accepted(d, mode) && Plain(c) && Plain(d)
    requires Canonical(c) == Canonical(d)
    ensures c == d
  {
    FrontIsClear(c, mode);
    FrontIsClear(d, mode);
    SameFrontSameLast(Front(c), c.disposition, Front(d), d.disposition);
    FieldsAreClear(c, mode);
    FieldsAreClear(d, mode);
    SameFields(c, d, mode);
  }

  lemma SameFields(c: Claims, d: Claims, mode: Mode)
    requires Accepted(c, mode) && Accepted(d, mode) && Front(c) == Front(d) && c.disposition == d.disposition
    requires ToUpper(c.verb) == c.verb && ToUpper(d.verb) == d.verb
    ensures c == d
  {
    var k := if mode.Multi? then 1 else 0;
    assert Front(c)[0] == c.verb && Front(d)[0] == d.verb;
    assert mode.Multi? ==> Front(c)[1] == c.server && Front(d)[1] == d.server;
    assert Front(c)[k + 1] == c.bucket && Front(d)[k + 1] == d.bucket;
    assert Front(c)[k + 2] == c.key && Front(d)[k + 2] == d.key;
    assert Front(c)[k + 3] == Number(c.expires) && Front(d)[k + 3] == Number(d.expires);
    assert Front(c)[k + 4] == c.range && Front(d)[k + 4] == d.range;
    assert Front(c)[k + 5] == c.contentType && Front(d)[k + 5] == d.contentType;
    NumberInjective(c.expires, d.expires);
  }

  /** Which line of the signed text is which field: the method, the server of a multi-server URL, bucket, key, expiry, range,
      content type, and from there on the content disposition. */
  lemma LinesAreFields(c: Claims, mode: Mode)
    requires Accepted(c, mode) && Plain(c)
    ensures var lines, k := Split(Canonical(c), '\n'), if mode.Multi? then 1 else 0;
            && |lines| >= k + 7 && lines[0] == c.verb && (mode.Multi? ==> lines[1] == c.server)
            && lines[k + 1] == c.bucket && lines[k + 2] == c.key && lines[k + 3] == Number(c.expires)
            && lines[k + 4] == c.range && lines[k + 5] == c.contentType && Join(lines[k + 6..], '\n') == c.disposition
  {
    FrontIsClear(c, mode);
    FieldsAreClear(c, mode);
    JoinSplits(Front(c), c.disposition);
    JoinOfSplit(c.disposition, '\n');
    var k := if mode.Multi? then 1 else 0;
    FrontIs(c, mode);
    var lines := Front(c) + Split(c.disposition, '\n');
    assert lines[k + 6..] == Split(c.disposition, '\n');
  }

  lemma FrontIs(c: Claims, mode: Mode)
    requires Accepted(c, mode) && ToUpper(c.verb) == c.verb
    ensures var f, k := Front(c), if mode.Multi? then 1 else 0;
            && |f| == k + 6 && f[0] == c.verb && (mode.Multi? ==> f[1] == c.server) && f[k + 1] == c.bucket && f[k + 2] == c.key
            && f[k + 3] == Number(c.expires) && f[k + 4] == c.range && f[k + 5] == c.contentType
  {
  }

  // ----- newlines -----

  /** The last three fields read back from their joined text, one line each for the first two. */
  function Reread(c: Claims): Claims {
    var tail := c.range + ['\n'] + c.contentType + ['\n'] + c.disposition;
    var (range, rest) := Cut(tail, '\n');
    var (contentType, disposition) := Cut(rest, '\n');
    c.(range := range, contentType := contentType, disposition := disposition)
  }

  lemma {:induction false} CutSplits(s: Text, sep: Octet)
    requires sep in s
    ensures var (a, b) := Cut(s, sep); sep !in a && s == a + [sep] + b
  {
    if s[0] == sep {
      assert s == [] + [sep] + s[1..];
    } else {
      CutSplits(s[1..], sep);
      var (a, b) := Cut(s[1..], sep);
      assert s == [s[0]] + s[1..];
      Glue([s[0]], a, [sep] + b);
      Glue(a, [sep], b);
      Glue([s[0]] + a, [sep], b);
    }
  }

  lemma {:induction false} CutAfter(a: Text, b: Text, sep: Octet)
    ensures sep in a + [sep] + b
    ensures var (x, y) := Cut(a + [sep] + b, sep); |x| <= |a| && |b| <= |y| && y[|y| - |b|..] == b && (x == a ==> y == b)
    ensures sep in a ==> Cut(a + [sep] + b, sep).0 != a
  {
    var s := a + [sep] + b;
    assert s[|a|] == sep;
    if a == [] {
      assert s[1..] == b;
    } else {
      assert s[0] == a[0] && s[1..] == a[1..] + [sep] + b;
      if a[0] != sep {
        CutAfter(a[1..], b, sep);
        assert a == [a[0]] + a[1..];
      } else {
        assert s[1..] == a[1..] + [sep] + b;
      }
    }
  }

  lemma Tail3(a: Text, b: Text, c: Text)
    ensures a + ['\n'] + b + ['\n'] + c == a + ['\n'] + (b + ['\n'] + c)
  {
  }

  /** Joined, the tail of the fields is the same text. */
  lemma RereadTail(c: Claims)
    ensures var d := Reread(c);
            && Plain(d)
            && c.range + ['\n'] + c.contentType + ['\n'] + c.disposition == d.range + ['\n'] + d.contentType + ['\n'] + d.disposition
            && (d == c <==> Plain(c))
  {
    var rest := c.contentType + ['\n'] + c.disposition;
    var tail := c.range + ['\n'] + c.contentType + ['\n'] + c.disposition;
    Tail3(c.range, c.contentType, c.disposition);
    CutAfter(c.range, rest, '\n');
    CutSplits(tail, '\n');
    var (range, more) := Cut(tail, '\n');
    assert '\n' in more by {
      assert more[|more| - |rest|..][|c.contentType|] == '\n';
    }
    CutSplits(more, '\n');
    var (contentType, disposition) := Cut(more, '\n');
    Tail3(range, contentType, disposition);
    if range == c.range { CutAfter(c.contentType, c.disposition, '\n'); }
    if Plain(c) {
      CutOfGlued(c.range, rest, '\n');
      CutOfGlued(c.contentType, c.disposition, '\n');
    }
  }

  /** The signed text in terms of its tail. */
  lemma {:induction false} JoinTail(front: seq<Text>, x: Text, y: Text, z: Text)
    requires front != []
    ensures Join(front + [x, y, z], '\n') == Join(front, '\n') + ['\n'] + (x + ['\n'] + y + ['\n'] + z)
  {
    var tail := x + ['\n'] + y + ['\n'] + z;
    if |front| == 1 {
      var all := front + [x, y, z];
      assert all[1..] == [x, y, z] && [x, y, z][1..] == [y, z] && [y, z][1..] == [z];
      assert Join([y, z], '\n') == y + ['\n'] + z;
      assert Join([x, y, z], '\n') == x + ['\n'] + (y + ['\n'] + z);
      assert x + ['\n'] + (y + ['\n'] + z) == tail;
    } else {
      JoinTail(front[1..], x, y, z);
      assert (front + [x, y, z])[1..] == front[1..] + [x, y, z];
      Glue(front[0] + ['\n'], Join(front[1..], '\n'), ['\n'] + tail);
      Glue(Join(front[1..], '\n'), ['\n'], tail);
      Glue(front[0] + ['\n'] + Join(front[1..], '\n'), ['\n'], tail);
    }
  }

  lemma RereadKeepsText(c: Claims)
    ensures Canonical(Reread(c)) == Canonical(c)
  {
    var d := Reread(c);
    var server: seq<Text> := if c.server == [] then [] else [c.server];
    var front := [ToUpper(c.verb)] + server + [c.bucket, c.key, Number(c.expires)];
    assert Fields(c) == front + [c.range, c.contentType, c.disposition];
    assert Fields(d) == front + [d.range, d.contentType, d.disposition];
    JoinTail(front, c.range, c.contentType, c.disposition);
    JoinTail(front, d.range, d.contentType, d.disposition);
    RereadTail(c);
  }

  ghost predicate Collides(c: Claims, d: Claims, mode: Mode) {
    Accepted(d, mode) && Plain(d) && Canonical(d) == Canonical(c) && d != c
  }

  /** A newline in the range or the content type is exactly what lets another accepted claim, without such
      newlines, have the same signed text. */
  lemma CollidesExactlyWithNewlines(c: Claims, mode: Mode)
    requires Accepted(c, mode)
    ensures (exists d :: Collides(c, d, mode)) <==> !Plain(c)
  {
    RereadTail(c);
    RereadKeepsText(c);
    if !Plain(c) {
      assert Collides(c, Reread(c), mode);
    } else if d :| Collides(c, d, mode) {
      SignedTextIsInjective(c, d, mode);
    }
  }

  // ----- accepted input -----

  lemma InputIsAccepted(c: Claims, expires: Option<int>, mode: Mode)
    ensures var r := ClaimsFromInput(c, expires, mode);
            r.Ok? ==> Accepted(r.value, mode) && expires == Some(r.value.expires)
  {
    var r := ClaimsFromInput(c, expires, mode);
    if r.Ok? {
      InputFields(c, expires, mode);
      AcceptedFields(c, r.value.verb, r.value.expires, mode);
    }
  }

  /** Only the method, the server and the expiry differ. */
  lemma InputFields(c: Claims, expires: Option<int>, mode: Mode)
    requires ClaimsFromInput(c, expires, mode).Ok?
    ensures var d := ClaimsFromInput(c, expires, mode).value;
            && (d.verb == GET || d.verb == HEAD) && ValidBucket(c.bucket) && ValidKey(c.key) && (mode.Multi? ==> ValidAlias(c.server))
            && expires == Some(d.expires) && d == c.(verb := d.verb, server := if mode.Multi? then c.server else [], expires := d.expires)
  {
  }

  lemma AcceptedFields(c: Claims, m: Text, expires: int, mode: Mode)
    requires (m == GET || m == HEAD) && ValidBucket(c.bucket) && ValidKey(c.key) && (mode.Multi? ==> ValidAlias(c.server))
    ensures Accepted(c.(verb := m, server := if mode.Multi? then c.server else [], expires := expires), mode)
  {
  }

  /** The same letters, in either case. */
  predicate Spells(s: Text, word: Text) {
    |s| == |word| && forall i :: 0 <= i < |s| ==> s[i] == word[i] || s[i] as int == word[i] as int + 32
  }

  lemma {:induction false} UpperIs(s: Text, word: Text)
    requires forall i :: 0 <= i < |word| ==> 'A' <= word[i] <= 'Z'
    ensures ToUpper(s) == word <==> Spells(s, word)
  {
    if s != [] && word != [] {
      UpperIs(s[1..], word[1..]);
      assert word == [word[0]] + word[1..];
      assert Spells(s, word) <==> (s[0] == word[0] || s[0] as int == word[0] as int + 32) && Spells(s[1..], word[1..]) by { SpellsTail(s, word); }
    }
  }

  lemma SpellsTail(s: Text, word: Text)
    requires s != [] && word != []
    ensures Spells(s, word) <==> (s[0] == word[0] || s[0] as int == word[0] as int + 32) && Spells(s[1..], word[1..])
  {
    if Spells(s[1..], word[1..]) {
      forall i | 1 <= i < |s| ensures s[i] == s[1..][i - 1] && word[i] == word[1..][i - 1] {
      }
    }
  }

  /** The method, in either case and with white space around it. */
  ghost predicate Asks(verb: Text, word: Text) {
    exists v :: CP.Trims(verb, v) && Spells(v, word)
  }

  lemma MethodIs(verb: Text, word: Text)
    requires forall i :: 0 <= i < |word| ==> 'A' <= word[i] <= 'Z'
    ensures ToUpper(Runes.TrimSpace(verb)) == word <==> Asks(verb, word)
  {
    var t := Runes.TrimSpace(verb);
    UpperIs(t, word);
    if t' :| CP.Trims(verb, t') && Spells(t', word) { CP.TrimSpaceIs(verb, t'); }
    if ToUpper(t) == word { CP.TrimSpaceIs(verb, t); }
  }

  /** In terms of the two methods. */
  lemma InputByMethod(c: Claims, expires: Option<int>, mode: Mode, verb: Text)
    requires verb == ToUpper(Runes.TrimSpace(c.verb))
    ensures ClaimsFromInput(c, expires, mode).Ok? <==>
              (verb == GET || verb == HEAD) && (mode.Multi? ==> ValidAlias(c.server)) && ValidBucket(c.bucket) && ValidKey(c.key) && expires.Some?
    ensures var r := ClaimsFromInput(c, expires, mode);
            r.Ok? ==> r.value == c.(verb := verb, server := if mode.Multi? then c.server else [], expires := r.value.expires)
                      && Some(r.value.expires) == expires
  {
  }

  /** What claimsFromInput takes, and what it makes of it. */
  lemma InputIsAcceptedExactlyWhen(c: Claims, expires: Option<int>, mode: Mode)
    ensures ClaimsFromInput(c, expires, mode).Ok? <==>
              && (Asks(c.verb, "GET") || Asks(c.verb, "HEAD"))
              && (mode.Multi? ==> ValidAlias(c.server)) && ValidBucket(c.bucket) && ValidKey(c.key) && expires.Some?
    ensures var r := ClaimsFromInput(c, expires, mode);
            r.Ok? ==>
              && Asks(c.verb, r.value.verb) && (r.value.verb == "GET" || r.value.verb == "HEAD")
              && r.value.server == (if mode.Multi? then c.server else []) && Some(r.value.expires) == expires
              && r.value.bucket == c.bucket && r.value.key == c.key && r.value.range == c.range
              && r.value.contentType == c.contentType && r.value.disposition == c.disposition
  {
    var verb := ToUpper(Runes.TrimSpace(c.verb));
    InputByMethod(c, expires, mode, verb);
    MethodsAre(c.verb, verb);
  }

  lemma MethodsAre(given: Text, verb: Text)
    requires verb == ToUpper(Runes.TrimSpace(given))
    ensures (verb == "GET" <==> Asks(given, "GET")) && (verb == "HEAD" <==> Asks(given, "HEAD"))
    ensures verb == "GET" || verb == "HEAD" ==> Asks(given, verb)
  {
    MethodIs(given, GET);
    MethodIs(given, HEAD);
  }

  /** Accepted claims are read back as they are. */
  lemma AcceptedIsKept(c: Claims, mode: Mode)
    requires Accepted(c, mode)
    ensures ClaimsFromInput(c, Some(c.expires), mode) == Ok(c)
  {
    UpperMethods();
    NothingToTrim(c.verb);
  }

  /** claimsFromInput is a normal form: what it returns is accepted, and returned unchanged when it is given again. */
  lemma ClaimsAreNormal(c: Claims, expires: Option<int>, mode: Mode)
    ensures var r := ClaimsFromInput(c, expires, mode);
            r.Ok? ==> Accepted(r.value, mode) && ClaimsFromInput(r.value, Some(r.value.expires), mode) == r
  {
    var r := ClaimsFromInput(c, expires, mode);
    InputIsAccepted(c, expires, mode);
    if r.Ok? { AcceptedIsKept(r.value, mode); }
  }

  lemma NothingToTrim(s: Text)
    requires s == GET || s == HEAD
    ensures Runes.TrimSpace(s) == s
  {
    assert GET == ['G', 'E', 'T'] && HEAD == ['H', 'E', 'A', 'D'];
    LettersStay(s);
  }

  lemma NotAt(s: Text, i: nat, pattern: seq<int>)
    requires i < |s| && pattern != [] && s[i] as int != pattern[0]
    ensures !Runes.At(s, i, pattern)
  {
    assert s[i + 0] as int != pattern[0];
  }

  lemma LettersStay(s: Text)
    requires s != [] && forall i :: 0 <= i < |s| ==> 'A' <= s[i] <= 'Z'
    ensures Runes.TrimSpace(s) == s
  {
    LetterIsNoSpace(s, 0);
    LetterIsNoSpace(s, |s| - 1);
    if |s| >= 2 { LetterIsNoSpace(s, |s| - 2); }
    if |s| >= 3 { LetterIsNoSpace(s, |s| - 3); }
    assert Runes.SpaceTail(s) == 0;
  }

  lemma LetterIsNoSpace(s: Text, i: nat)
    requires i < |s| && 'A' <= s[i] <= 'Z'
    ensures Runes.SpaceLen(s, i) == 0
  {
    NotAt(s, i, [0xC2, 0x85]);
    NotAt(s, i, [0xC2, 0xA0]);
  }

  // ----- the expiry of a signed URL -----

  /** int64 arithmetic. */
  function Wrap64(n: int): int {
    (n + 0x8000_0000_0000_0000) % 0x1_0000_0000_0000_0000 - 0x8000_0000_0000_0000
  }

  function UnixSeconds(text: Text): Option<int> {
    if !AllDigits(text) then None
    else if Wrap64(DecimalValue(text)) <= 0 then None
    else Some(Wrap64(DecimalValue(text)))
  }

  lemma WrapWraps(n: int, d: int)
    ensures Wrap64(Wrap64(n) * 10 + d) == Wrap64(n * 10 + d)
  {
    var q := (n + 0x8000_0000_0000_0000) / 0x1_0000_0000_0000_0000;
    assert Wrap64(n) == n - q * 0x1_0000_0000_0000_0000;
    Shift(n * 10 + d, -(q * 10));
  }

  lemma Shift(a: int, k: int)
    ensures Wrap64(a + k * 0x1_0000_0000_0000_0000) == Wrap64(a)
  {
  }

  /** parseUnixSeconds, in int64: digits only, positive after wrap-around; what it reads is the value of the text exactly
      when that is positive and has 63 bits, and another number exactly when the value is longer and its remainder
      modulo 2^64 is positive with 63 bits. */
  method ParseUnixSeconds(text: Text) returns (r: Option<int>)
    ensures r == UnixSeconds(text)
    ensures !AllDigits(text) ==> r.None?
    ensures AllDigits(text) ==>
              var n := DecimalValue(text);
              && (r == Some(n) <==> 0 < n < 0x8000_0000_0000_0000)
              && (r.Some? && r != Some(n) <==>
                    n >= 0x8000_0000_0000_0000 && 0 < n % 0x1_0000_0000_0000_0000 < 0x8000_0000_0000_0000)
              && (r.Some? ==> r.value == n % 0x1_0000_0000_0000_0000)
  {
    UnixSecondsExactlyWhen(text);
    var n := 0;
    for i := 0 to |text|
      invariant AllDigits(text[..i]) && n == Wrap64(DecimalValue(text[..i]))
    {
      if !('0' <= text[i] <= '9') { return None; }
      assert text[..i + 1][..i] == text[..i];
      WrapWraps(DecimalValue(text[..i]), text[i] as int - '0' as int);
      n := Wrap64(n * 10 + (text[i] as int - '0' as int));
    }
    assert text[..|text|] == text;
    if n <= 0 { return None; }
    r := Some(n);
  }

  /** Which remainder a number of int64 wraps around to. */
  lemma WrapOf(n: nat)
    ensures var m := n % 0x1_0000_0000_0000_0000;
            Wrap64(n) == if m < 0x8000_0000_0000_0000 then m else m - 0x1_0000_0000_0000_0000
  {
    var q, m := n / 0x1_0000_0000_0000_0000, n % 0x1_0000_0000_0000_0000;
    assert n == m + q * 0x1_0000_0000_0000_0000;
    Shift(m, q);
  }

  /** The expiry that a text is read as, for every text, with leading zeros or empty: its value exactly when that is
      positive and has 63 bits, and some other number, accepted all the same, exactly when the value has more and
      its remainder modulo 2^64 is again positive with 63 bits.  Everything else is refused. */
  lemma UnixSecondsExactlyWhen(text: Text)
    ensures !AllDigits(text) ==> UnixSeconds(text).None?
    ensures AllDigits(text) ==>
              var n := DecimalValue(text);
              && (UnixSeconds(text) == Some(n) <==> 0 < n < 0x8000_0000_0000_0000)
              && (UnixSeconds(text).Some? && UnixSeconds(text) != Some(n) <==>
                    n >= 0x8000_0000_0000_0000 && 0 < n % 0x1_0000_0000_0000_0000 < 0x8000_0000_0000_0000)
              && (UnixSeconds(text).Some? ==> UnixSeconds(text).value == n % 0x1_0000_0000_0000_0000)
  {
    if AllDigits(text) { WrapOf(DecimalValue(text)); }
  }

  /** So a printed expiry is read back exactly when it is positive and has 63 bits, and 2^64 + 1 is read as 1. */
  lemma {:induction false} ExpiryReturns(n: int)
    ensures UnixSeconds(Number(n)) == Some(n) <==> 0 < n < 0x8000_0000_0000_0000
    ensures n == 0x1_0000_0000_0000_0001 ==> UnixSeconds(Number(n)) == Some(1)
  {
    if n >= 0 {
      DecimalReturns(n);
      UnixSecondsExactlyWhen(Number(n));
      WrapOf(n);
    } else {
      assert Number(n)[0] == '-';
    }
  }
}
