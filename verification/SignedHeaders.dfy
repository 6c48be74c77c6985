/** Header names and values as AWS Signature Version 4 signs them (internal/s3api/sigv4.go,
    sigv4NormalizeHeaderValue and sigv4ParseSignedHeaders). */
module SignedHeaders {
  import opened Octets
  import opened Strings
  import R = Runes

  // ----- values -----

  predicate White(c: Octet) {
    c == ' ' || c == '\t' || c == '\n' || c == '\r' || c as int == 11 || c as int == 12
  }

  function TrimLeft(s: Text): Text {
    if s != [] && White(s[0]) then TrimLeft(s[1..]) else s
  }

  function TrimRight(s: Text): Text {
    if s != [] && White(s[|s| - 1]) then TrimRight(s[..|s| - 1]) else s
  }

  /** The words of `s`, the first of them already begun with `cur`. */
  function WordsFrom(s: Text, cur: Text): seq<Text> {
    var done: seq<Text> := if cur == [] then [] else [cur];
    if s == [] then done
    else if White(s[0]) then done + WordsFrom(s[1..], [])
    else WordsFrom(s[1..], cur + [s[0]])
  }

  function Words(s: Text): seq<Text> {
    WordsFrom(s, [])
  }

  /** What the loop writes for the rest `s`, after white space or not, with something written before or not. */
  function CollapseRunes(s: Text, inWhite: bool, started: bool): Text {
    if s == [] then []
    else if White(s[0]) then CollapseRunes(s[1..], true, started)
    else
      (if inWhite && started then [' '] else []) + R.FirstRune(s).0 + CollapseRunes(s[R.FirstRune(s).1..], false, true)
  }

  function Normalize(s: Text): Text {
    CollapseRunes(TrimRight(TrimLeft(s)), false, false)
  }

  /** The same, octet by octet. */
  function Collapse(s: Text, inWhite: bool, started: bool): Text {
    if s == [] then []
    else if White(s[0]) then Collapse(s[1..], true, started)
    else (if inWhite && started then [' '] else []) + [s[0]] + Collapse(s[1..], false, true)
  }

  /** Only the first octet of a rune can be white space. */
  lemma RuneIsNotWhite(r: Text)
    requires r != [] && R.RuneLen(r) == |r| && !White(r[0])
    ensures forall k :: 0 <= k < |r| ==> !White(r[k])
  {
  }

  lemma {:induction false} LettersThen(w: Text, s: Text, inWhite: bool, started: bool)
    requires w != [] && forall k :: 0 <= k < |w| ==> !White(w[k])
    ensures Collapse(w + s, inWhite, started) == (if inWhite && started then [' '] else []) + w + Collapse(s, false, true)
    decreases |w|
  {
    var gap: Text := if inWhite && started then [' '] else [];
    assert (w + s)[0] == w[0] && (w + s)[1..] == w[1..] + s;
    if |w| == 1 {
      assert w[1..] + s == s && w == [w[0]];
    } else {
      LettersThen(w[1..], s, false, true);
      Glued(gap, w[0], w[1..], Collapse(s, false, true));
    }
  }

  lemma Glued(gap: Text, c: Octet, w: Text, rest: Text)
    ensures gap + [c] + ([] + w + rest) == gap + ([c] + w) + rest
  {
  }

  /** The loop over runes is the loop over octets of the text with its ill-formed octets replaced. */
  lemma {:induction false} CollapseOfRunes(s: Text, inWhite: bool, started: bool)
    ensures CollapseRunes(s, inWhite, started) == Collapse(R.Sanitize(s), inWhite, started)
    decreases |s|
  {
    if s != [] {
      R.RuneStart(s);
      var (r, n) := R.FirstRune(s);
      var rest := R.Sanitize(s[n..]);
      if White(s[0]) {
        CollapseOfRunes(s[1..], true, started);
        assert r == [s[0]] && n == 1 && (r + rest)[0] == s[0] && (r + rest)[1..] == rest;
      } else {
        CollapseOfRunes(s[n..], false, true);
        RuneIsNotWhite(r);
        LettersThen(r, rest, inWhite, started);
      }
    }
  }

  lemma WhiteFirst(s: Text)
    requires s != [] && White(s[0])
    ensures Words(s) == Words(s[1..])
  {
    assert [] + Words(s[1..]) == Words(s[1..]);
  }

  lemma LetterFirst(s: Text)
    requires s != [] && !White(s[0])
    ensures Words(s) == WordsFrom(s[1..], [s[0]])
    ensures forall inWhite :: Collapse(s, inWhite, false) == [s[0]] + Collapse(s[1..], false, true)
  {
    var nothing: Text := [];
    assert nothing + [s[0]] == [s[0]];
  }

  lemma {:induction false} CollapseInWord(s: Text, cur: Text)
    requires cur != []
    ensures WordsFrom(s, cur) != [] && Join(WordsFrom(s, cur), ' ') == cur + Collapse(s, false, true)
    decreases |s|, 0
  {
    if s == [] {
    } else if White(s[0]) {
      CollapseAfterWhite(s[1..]);
      var rest := Words(s[1..]);
      assert ([cur] + rest)[1..] == rest;
      Glue(cur, [' '], Join(rest, ' '));
    } else {
      CollapseInWord(s[1..], cur + [s[0]]);
      Glue(cur, [s[0]], Collapse(s[1..], false, true));
    }
  }

  lemma {:induction false} CollapseAfterWhite(s: Text)
    ensures Collapse(s, true, true) == if Words(s) == [] then [] else [' '] + Join(Words(s), ' ')
    decreases |s|, 1
  {
    if s != [] {
      if White(s[0]) {
        CollapseAfterWhite(s[1..]);
        WhiteFirst(s);
      } else {
        CollapseInWord(s[1..], [s[0]]);
        LetterFirst(s);
        Glue([' '], [s[0]], Collapse(s[1..], false, true));
      }
    }
  }

  lemma {:induction false} CollapseAtStart(s: Text, inWhite: bool)
    ensures Collapse(s, inWhite, false) == Join(Words(s), ' ')
    decreases |s|
  {
    if s != [] {
      if White(s[0]) { CollapseAtStart(s[1..], true); WhiteFirst(s); } else { CollapseInWord(s[1..], [s[0]]); LetterFirst(s); }
    }
  }

  lemma {:induction false} TrimLeftKeepsWords(s: Text)
    ensures Words(R.Sanitize(TrimLeft(s))) == Words(R.Sanitize(s))
  {
    if s != [] && White(s[0]) {
      TrimLeftKeepsWords(s[1..]);
      R.AsciiStart(s[0], s[1..]);
      assert s == [s[0]] + s[1..];
      WhiteFirst([s[0]] + R.Sanitize(s[1..]));
    }
  }

  lemma {:induction false} WhiteAtEnd(s: Text, c: Octet, cur: Text)
    requires White(c)
    ensures WordsFrom(s + [c], cur) == WordsFrom(s, cur)
    decreases |s|
  {
    if s == [] {
      assert (s + [c])[1..] == [];
    } else {
      assert (s + [c])[1..] == s[1..] + [c];
      WhiteAtEnd(s[1..], c, []);
      WhiteAtEnd(s[1..], c, cur + [s[0]]);
    }
  }

  lemma WhiteLast(s: Text, c: Octet)
    requires White(c)
    ensures Words(R.Sanitize(s + [c])) == Words(R.Sanitize(s))
  {
    R.AsciiEnd(s, c);
    WhiteAtEnd(R.Sanitize(s), c, []);
  }

  lemma {:induction false} TrimRightKeepsWords(s: Text)
    ensures Words(R.Sanitize(TrimRight(s))) == Words(R.Sanitize(s))
  {
    if s != [] && White(s[|s| - 1]) {
      TrimRightKeepsWords(s[..|s| - 1]);
      WhiteLast(s[..|s| - 1], s[|s| - 1]);
      assert s == s[..|s| - 1] + [s[|s| - 1]];
    }
  }

  /** The normalised value is the words of the value, one space apart. */
  lemma NormalizeJoinsWords(s: Text)
    ensures Normalize(s) == Join(Words(R.Sanitize(s)), ' ')
  {
    var trimmed := TrimRight(TrimLeft(s));
    TrimLeftKeepsWords(s);
    TrimRightKeepsWords(TrimLeft(s));
    CollapseOfRunes(trimmed, false, false);
    CollapseAtStart(R.Sanitize(trimmed), false);
  }

  predicate AreWords(ws: seq<Text>) {
    forall i :: 0 <= i < |ws| ==> ws[i] != [] && forall k :: 0 <= k < |ws[i]| ==> !White(ws[i][k])
  }

  lemma {:induction false} WordsAreWords(s: Text, cur: Text)
    requires forall k :: 0 <= k < |cur| ==> !White(cur[k])
    ensures AreWords(WordsFrom(s, cur))
    decreases |s|
  {
    if s != [] {
      WordsAreWords(s[1..], []);
      if !White(s[0]) { WordsAreWords(s[1..], cur + [s[0]]); }
    }
  }

  /** A word at the front. */
  lemma {:induction false} WordThen(w: Text, s: Text, cur: Text)
    requires forall k :: 0 <= k < |w| ==> !White(w[k])
    ensures WordsFrom(w + s, cur) == WordsFrom(s, cur + w)
    decreases |w|
  {
    if w == [] {
      assert w + s == s && cur + w == cur;
    } else {
      assert (w + s)[1..] == w[1..] + s && (w + s)[0] == w[0];
      WordThen(w[1..], s, cur + [w[0]]);
      assert cur + [w[0]] + w[1..] == cur + w;
    }
  }

  lemma OneWord(w: Text)
    requires AreWords([w])
    ensures Words(w) == [w]
  {
    assert [w][0] == w;
    WordThen(w, [], []);
    assert w + [] == w && [] + w == w;
    assert WordsFrom([], w) == [w];
  }

  lemma FirstWord(w: Text, s: Text)
    requires AreWords([w])
    ensures Words(w + [' '] + s) == [w] + Words(s)
  {
    assert [w][0] == w;
    var rest := [' '] + s;
    WordThen(w, rest, []);
    assert [] + w == w && rest[1..] == s && w + rest == w + [' '] + s;
    assert WordsFrom(rest, w) == [w] + Words(s);
  }

  lemma {:induction false} WordsOfJoin(ws: seq<Text>)
    requires AreWords(ws)
    ensures Words(Join(ws, ' ')) == ws
  {
    if |ws| == 1 {
      OneWord(ws[0]);
      assert Join(ws, ' ') == ws[0] && ws == [ws[0]];
    } else if |ws| > 1 {
      WordsOfJoin(ws[1..]);
      FirstWord(ws[0], Join(ws[1..], ' '));
      assert ws == [ws[0]] + ws[1..];
    }
  }

  /** The rules that decide the words of a text: white space separates, and what has none is one word. */
  lemma WordsFollowTheirRules(a: Text, c: Octet, b: Text)
    requires c in [' ', '\t', '\n', '\r', 11 as char, 12 as char]
    ensures Words(a + [c] + b) == Words(a) + Words(b)
    ensures Words([]) == []
    ensures forall w :: w != [] && (forall k :: 0 <= k < |w| ==> w[k] !in [' ', '\t', '\n', '\r', 11 as char, 12 as char]) ==> Words(w) == [w]
  {
    WordsAround(a, c, b, []);
    forall w | w != [] && (forall k :: 0 <= k < |w| ==> w[k] !in [' ', '\t', '\n', '\r', 11 as char, 12 as char]) ensures Words(w) == [w] {
      OneWord(w);
    }
  }

  lemma {:induction false} WordsAround(a: Text, c: Octet, b: Text, cur: Text)
    requires White(c)
    ensures WordsFrom(a + [c] + b, cur) == WordsFrom(a, cur) + Words(b)
    decreases |a|
  {
    var s := a + [c] + b;
    if a == [] {
      assert s[0] == c && s[1..] == b;
    } else {
      assert s[0] == a[0] && s[1..] == a[1..] + [c] + b;
      WordsAround(a[1..], c, b, []);
      WordsAround(a[1..], c, b, cur + [a[0]]);
      var done: seq<Text> := if cur == [] then [] else [cur];
      assert done + (Words(a[1..]) + Words(b)) == done + Words(a[1..]) + Words(b);
    }
  }

  lemma MoveOne(cur: Text, s: Text)
    requires s != []
    ensures cur + s == cur + [s[0]] + s[1..] && [] + s[1..] == s[1..]
  {
  }

  /** The words of a UTF-8 text are UTF-8. */
  lemma {:induction false} WordsAreWellFormed(s: Text, cur: Text)
    requires R.WellFormed(cur + s)
    ensures forall i :: 0 <= i < |WordsFrom(s, cur)| ==> R.WellFormed(WordsFrom(s, cur)[i])
    decreases |s|
  {
    if s == [] {
      assert cur + s == cur;
    } else if White(s[0]) {
      MoveOne(cur, s);
      R.WellFormedParts(cur, s[0], s[1..]);
      WordsAreWellFormed(s[1..], []);
    } else {
      MoveOne(cur, s);
      WordsAreWellFormed(s[1..], cur + [s[0]]);
    }
  }

  lemma {:induction false} JoinIsWellFormed(ws: seq<Text>)
    requires forall i :: 0 <= i < |ws| ==> R.WellFormed(ws[i])
    ensures R.WellFormed(Join(ws, ' '))
  {
    if |ws| > 1 {
      JoinIsWellFormed(ws[1..]);
      assert [' '][1..] == [];
      R.WellFormedAppend(ws[0], [' ']);
      R.WellFormedAppend(ws[0] + [' '], Join(ws[1..], ' '));
    }
  }

  lemma NormalizeWords(s: Text)
    ensures R.WellFormed(Normalize(s)) && Words(Normalize(s)) == Words(R.Sanitize(s)) && R.Sanitize(Normalize(s)) == Normalize(s)
  {
    var clean := R.Sanitize(s);
    NormalizeJoinsWords(s);
    R.SanitizeIsWellFormed(s);
    assert [] + clean == clean;
    WordsAreWellFormed(clean, []);
    JoinIsWellFormed(Words(clean));
    WordsAreWords(clean, []);
    WordsOfJoin(Words(clean));
    R.FixedExactlyWhenWellFormed(Normalize(s));
  }

  /** The normalised value is UTF-8 for every value, normalising twice is normalising once, and two values normalise
      alike exactly when they have the same words after ill-formed octets have been replaced. */
  lemma NormalizeDecidesWords(s: Text, t: Text)
    ensures R.WellFormed(Normalize(s))
    ensures Normalize(Normalize(s)) == Normalize(s)
    ensures Normalize(s) == Normalize(t) <==> Words(R.Sanitize(s)) == Words(R.Sanitize(t))
  {
    NormalizeWords(s);
    NormalizeWords(t);
    NormalizeJoinsWords(s);
    NormalizeJoinsWords(t);
    NormalizeJoinsWords(Normalize(s));
  }

  lemma Written(b: Text, gap: Text, r: Text, rest: Text)
    requires r != []
    ensures b + (gap + r + rest) == b + gap + r + rest && (b + gap + r != []) == true
  {
    assert |b + gap + r| > 0;
  }

  /** One round of the loop, at octet `i`. */
  lemma RuneTaken(s: Text, i: nat, inWhite: bool, started: bool)
    requires i < |s|
    ensures var (r, n) := R.FirstRune(s[i..]);
            && 0 < n && i + n <= |s| && r != []
            && if White(s[i]) then n == 1 && CollapseRunes(s[i..], inWhite, started) == CollapseRunes(s[i + 1..], true, started)
               else CollapseRunes(s[i..], inWhite, started) ==
                      (if inWhite && started then [' '] else []) + r + CollapseRunes(s[i + n..], false, true)
  {
    R.RuneStart(s[i..]);
    var (r, n) := R.FirstRune(s[i..]);
    assert s[i..][n..] == s[i + n..] && s[i..][1..] == s[i + 1..] && s[i..][0] == s[i];
  }

  /** What will have been written in the end: `b`, and what the loop writes from octet `i` on. */
  function Whole(b: Text, s: Text, i: nat, inWhite: bool): Text
    requires i <= |s|
  {
    b + CollapseRunes(s[i..], inWhite, b != [])
  }

  lemma NothingWritten(s: Text)
    ensures Whole([], s, 0, false) == CollapseRunes(s, false, false)
  {
    assert s[0..] == s && [] + CollapseRunes(s, false, false) == CollapseRunes(s, false, false);
  }

  lemma AllWritten(b: Text, s: Text, inWhite: bool)
    ensures Whole(b, s, |s|, inWhite) == b
  {
    assert s[|s|..] == [] && b + [] == b;
  }

  /** Its body: what is written for the rune at octet `i`. */
  method WriteRune(s: Text, i: nat, b: Text, inWhite: bool) returns (b': Text, inWhite': bool, n: nat)
    requires i < |s|
    ensures 0 < n && i + n <= |s|
    ensures Whole(b', s, i + n, inWhite') == Whole(b, s, i, inWhite)
  {
    RuneTaken(s, i, inWhite, b != []);
    var r := R.FirstRune(s[i..]).0;
    n := R.FirstRune(s[i..]).1;
    if White(s[i]) { return b, true, n; }
    var gap: Text := if inWhite && |b| > 0 then [' '] else [];
    Written(b, gap, r, CollapseRunes(s[i + n..], false, true));
    b', inWhite' := b + gap + r, false;
  }

  /** The whole loop. */
  method WriteRunes(s: Text) returns (b: Text)
    ensures b == CollapseRunes(s, false, false)
  {
    var inWhite, i, n := false, 0, 0;
    b := [];
    NothingWritten(s);
    while i < |s|
      invariant i <= |s| && Whole(b, s, i, inWhite) == CollapseRunes(s, false, false)
    {
      b, inWhite, n := WriteRune(s, i, b, inWhite);
      i := i + n;
    }
    AllWritten(b, s, inWhite);
  }

  /** sigv4NormalizeHeaderValue. */
  method NormalizeHeaderValue(value: Text) returns (b: Text)
    ensures b == Join(Words(R.Sanitize(value)), ' ')
  {
    b := WriteRunes(TrimRight(TrimLeft(value)));
    NormalizeJoinsWords(value);
  }

  // ----- names -----

  const HOST: Text := "host"

  /** strings.ToLower on ASCII text; beyond ASCII it follows the Unicode tables and is a parameter below. */
  function AsciiLower(s: Text): (r: Text)
    ensures |r| == |s|
  {
    if s == [] then [] else [if 'A' <= s[0] <= 'Z' then (s[0] as int + 32) as char else s[0]] + AsciiLower(s[1..])
  }

  /** A name that it leaves unchanged is one without capitals. */
  lemma {:induction false} AsciiLowerFixes(s: Text)
    ensures AsciiLower(s) == s <==> forall k :: 0 <= k < |s| ==> !('A' <= s[k] <= 'Z')
  {
    if s != [] {
      AsciiLowerFixes(s[1..]);
      assert s == [s[0]] + s[1..];
      assert forall k :: 0 <= k < |s[1..]| ==> s[1..][k] == s[k + 1];
    }
  }

  predicate Less(a: Text, b: Text) {
    a != b && LessEq(a, b)
  }

  /** A list of signed headers: lower-case names in strictly increasing order, host among them. */
  predicate Acceptable(names: seq<Text>, toLower: Text -> Text) {
    && (forall i :: 0 <= i < |names| ==> names[i] != [] && toLower(names[i]) == names[i])
    && (forall i, j :: 0 <= i < j < |names| ==> Less(names[i], names[j]))
    && HOST in names
  }

  lemma {:induction false} SortedAdjacent(names: seq<Text>, i: nat, j: nat)
    requires i < j < |names|
    requires forall k :: 0 < k < |names| ==> !Less(names[k], names[k - 1])
    ensures LessEq(names[i], names[j])
    decreases j - i
  {
    Total(names[j - 1], names[j]);
    if i < j - 1 {
      SortedAdjacent(names, i, j - 1);
      Transitive(names[i], names[j - 1], names[j]);
    }
  }

  lemma SortedNames(names: seq<Text>)
    requires forall k :: 0 < k < |names| ==> !Less(names[k], names[k - 1])
    requires forall i, j :: 0 <= i < j < |names| ==> names[i] != names[j]
    ensures forall i, j :: 0 <= i < j < |names| ==> Less(names[i], names[j])
  {
    forall i, j | 0 <= i < j < |names| ensures Less(names[i], names[j]) {
      SortedAdjacent(names, i, j);
    }
  }

  lemma OutOfOrder(names: seq<Text>, k: nat, toLower: Text -> Text)
    requires 0 < k < |names| && Less(names[k], names[k - 1])
    ensures !Acceptable(names, toLower)
  {
    Total(names[k], names[k - 1]);
  }

  /** Each name is there, in lower case, and new. */
  method CheckNames(parts: seq<Text>, toLower: Text -> Text) returns (ok: bool, seen: set<Text>)
    ensures ok <==> (forall i :: 0 <= i < |parts| ==> parts[i] != [] && toLower(parts[i]) == parts[i])
                    && (forall i, j :: 0 <= i < j < |parts| ==> parts[i] != parts[j])
    ensures ok ==> forall x :: x in seen <==> x in parts
  {
    seen := {};
    for i := 0 to |parts|
      invariant forall j :: 0 <= j < i ==> parts[j] != [] && toLower(parts[j]) == parts[j]
      invariant forall x :: x in seen <==> x in parts[..i]
      invariant forall j, k :: 0 <= j < k < i ==> parts[j] != parts[k]
    {
      if parts[i] == [] { return false, seen; }
      var lower := toLower(parts[i]);
      if parts[i] != lower { return false, seen; }
      if lower in seen { return false, seen; }
      seen := seen + {lower};
      assert parts[..i + 1] == parts[..i] + [parts[i]];
    }
    assert parts[..|parts|] == parts;
    ok := true;
  }

  /** sort.StringsAreSorted. */
  method CheckOrder(parts: seq<Text>) returns (ok: bool)
    ensures ok <==> forall k :: 0 < k < |parts| ==> !Less(parts[k], parts[k - 1])
  {
    var k := |parts| - 1;
    while k > 0
      invariant k < |parts|
      invariant forall j :: 0 < j < |parts| && k < j ==> !Less(parts[j], parts[j - 1])
    {
      if Less(parts[k], parts[k - 1]) { return false; }
      k := k - 1;
    }
    ok := true;
  }

  /** sigv4ParseSignedHeaders: whatever strings.ToLower does, exactly the strictly increasing lists of non-empty
      names that it leaves unchanged, with host among them, are accepted, and joining the result gives the value back. */
  method ParseSignedHeaders(value: Text, toLower: Text -> Text) returns (r: Option<seq<Text>>)
    ensures r.Some? <==> Acceptable(Split(value, ';'), toLower)
    ensures r.Some? ==> r.value == Split(value, ';') && Join(r.value, ';') == value
  {
    var parts := Split(value, ';');
    JoinOfSplit(value, ';');
    var ok, seen := CheckNames(parts, toLower);
    if !ok { return None; }
    ok := CheckOrder(parts);
    if !ok {
      var k :| 0 < k < |parts| && Less(parts[k], parts[k - 1]);
      OutOfOrder(parts, k, toLower);
      return None;
    }
    if HOST !in seen { return None; }
    SortedNames(parts);
    r := Some(parts);
  }
}
