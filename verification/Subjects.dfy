/** Ticket subjects derived from a template (internal/config/config.go, DeriveNATSSubject and its validators). */
module Subjects {
  import opened Octets
  import opened Strings
  import opened Names
  import opened Runes
  import CP = CodePoints

  const MARK: Text := "{server}"
  const SAMPLE: Text := "sample"

  // ----- subjects -----

  /** The octet at `i` begins white space, a control character or a wildcard. */
  predicate BadAt(s: Text, i: nat) {
    i < |s| && (SpaceLen(s, i) > 0 || ControlAt(s, i) || s[i] == '*' || s[i] == '>')
  }

  predicate Bad(s: Text) {
    exists i :: 0 <= i < |s| && BadAt(s, i)
  }

  /** ValidateNATSSubject. */
  predicate ValidSubject(s: Text) {
    TrimSpace(s) != [] && !Bad(s) && forall token :: token in Split(s, '.') ==> token != []
  }

  // ----- templates -----

  predicate Marked(t: Text) {
    |t| >= |MARK| && t[..|MARK|] == MARK
  }

  /** strings.ReplaceAll(t, "{server}", x). */
  function Replace(t: Text, x: Text): Text {
    if t == [] then []
    else if Marked(t) then x + Replace(t[|MARK|..], x)
    else [t[0]] + Replace(t[1..], x)
  }

  /** The brace scan of ValidateNATSSubjectTemplate: braces occur only as placeholders. */
  predicate Balanced(t: Text) {
    t == []
    || (Marked(t) && Balanced(t[|MARK|..]))
    || (t[0] != '{' && t[0] != '}' && Balanced(t[1..]))
  }

  /** A placeholder occurs. */
  predicate HasMark(t: Text) {
    t != [] && (Marked(t) || HasMark(t[1..]))
  }

  /** ValidateNATSSubjectTemplate. */
  predicate ValidTemplate(t: Text) {
    TrimSpace(t) != [] && Balanced(t) && HasMark(t) && ValidSubject(Replace(t, SAMPLE))
  }

  datatype SubjectFault = BadAlias | BadTemplate | BadSubject

  /** DeriveNATSSubject. */
  function Derive(t: Text, server: Text): Result<Text, SubjectFault> {
    if !ValidAlias(server) then Err(BadAlias)
    else if !ValidTemplate(t) then Err(BadTemplate)
    else if !ValidSubject(Replace(t, server)) then Err(BadSubject)
    else Ok(Replace(t, server))
  }

  // ----- bad octets -----

  /** A replacement: non-empty, and made of octets that neither are bad, nor complete a bad rune, nor end a token. */
  predicate Word(x: Text) {
    x != [] && forall i :: 0 <= i < |x| ==> IsAlphaNum(x[i]) || x[i] == '_' || x[i] == '-'
  }

  /** Whether the octet at `i` is bad depends on the next two octets at most, and on them only if they continue a rune. */
  predicate Continues(c: Octet) {
    0x80 <= c as int < 0xC0
  }

  function Window(s: Text, i: nat): Text
    requires i < |s|
  {
    if i + 1 >= |s| || !Continues(s[i + 1]) then [s[i]]
    else if i + 2 >= |s| || !Continues(s[i + 2]) then [s[i], s[i + 1]]
    else [s[i], s[i + 1], s[i + 2]]
  }

  lemma AtIs(s: Text, i: nat, a: int, b: int)
    ensures At(s, i, [a, b]) <==> i + 2 <= |s| && s[i] as int == a && s[i + 1] as int == b
  {
    if At(s, i, [a, b]) { assert s[i + 0] as int == [a, b][0] && s[i + 1] as int == [a, b][1]; }
  }

  lemma BadInWindow(s: Text, i: nat)
    requires i < |s|
    ensures BadAt(s, i) <==> BadAt(Window(s, i), 0)
  {
    var w := Window(s, i);
    AtIs(s, i, 0xC2, 0x85);
    AtIs(s, i, 0xC2, 0xA0);
    AtIs(w, 0, 0xC2, 0x85);
    AtIs(w, 0, 0xC2, 0xA0);
  }

  lemma SameWindow(s: Text, i: nat, t: Text, j: nat)
    requires i < |s| && j < |t| && Window(s, i) == Window(t, j)
    ensures BadAt(s, i) <==> BadAt(t, j)
  {
    BadInWindow(s, i);
    BadInWindow(t, j);
  }

  lemma WordIsGood(x: Text, i: nat)
    requires i < |x| && (IsAlphaNum(x[i]) || x[i] == '_' || x[i] == '-')
    ensures !BadAt(x, i)
  {
    AtIs(x, i, 0xC2, 0x85);
    AtIs(x, i, 0xC2, 0xA0);
  }

  /** A word between two texts neither adds nor hides bad octets. */
  lemma BadAround(a: Text, x: Text, b: Text)
    requires Word(x)
    ensures Bad(a + x + b) <==> Bad(a) || Bad(b)
  {
    var s := a + x + b;
    forall i | 0 <= i < |s| ensures BadAt(s, i) <==>
      if i < |a| then BadAt(a, i) else if i < |a| + |x| then false else BadAt(b, i - |a| - |x|)
    {
      if i < |a| {
        SameWindow(s, i, a, i);
      } else if i < |a| + |x| {
        assert s[i] == x[i - |a|];
        WordIsGood(s, i);
      } else {
        SameWindow(s, i, b, i - |a| - |x|);
      }
    }
    if Bad(a) { var i :| 0 <= i < |a| && BadAt(a, i); assert BadAt(s, i); }
    if Bad(b) { var i :| 0 <= i < |b| && BadAt(b, i); assert BadAt(s, i + |a| + |x|); }
  }

  // ----- tokens -----

  /** An empty token: a separator at an end, or two in a row. */
  predicate Gap(s: Text) {
    s == [] || s[0] == '.' || s[|s| - 1] == '.' || Adjacent(s, '.', '.')
  }

  lemma {:induction false} EmptyTokenIsGap(s: Text)
    ensures [] in Split(s, '.') <==> Gap(s)
    ensures s != [] && s[0] != '.' ==> Split(s, '.')[0] != []
    ensures s != [] && s[0] == '.' ==> Split(s, '.')[0] == []
    decreases |s|
  {
    if s != [] {
      var rest := s[1..];
      EmptyTokenIsGap(rest);
      var parts := Split(rest, '.');
      assert Adjacent(s, '.', '.') <==> (rest != [] && s[0] == '.' && rest[0] == '.') || Adjacent(rest, '.', '.') by {
        AdjacentTail(s);
      }
      if s[0] != '.' {
        var all := [[s[0]] + parts[0]] + parts[1..];
        assert Split(s, '.') == all;
        assert [] in all <==> [] in parts[1..];
        assert [] in parts <==> parts[0] == [] || [] in parts[1..] by { assert parts == [parts[0]] + parts[1..]; }
        if rest != [] && rest[0] == '.' {
          FirstEmpty(rest);
          EmptyTokenIsGap(rest[1..]);
          AdjacentTail(rest);
        }
      }
    }
  }

  /** After a first separator there is another token; it is the first of what follows. */
  lemma FirstEmpty(s: Text)
    requires s != [] && s[0] == '.'
    ensures Split(s, '.')[1..] == Split(s[1..], '.') && Split(s, '.')[0] == []
  {
  }

  lemma AdjacentTail(s: Text)
    requires s != []
    ensures Adjacent(s, '.', '.') <==> (|s| > 1 && s[0] == '.' && s[1] == '.') || Adjacent(s[1..], '.', '.')
  {
    if Adjacent(s, '.', '.') {
      var i :| 0 <= i < |s| - 1 && s[i] == '.' && s[i + 1] == '.';
      if i > 0 { assert s[1..][i - 1] == '.' && s[1..][i - 1 + 1] == '.'; }
    }
    if Adjacent(s[1..], '.', '.') {
      var i :| 0 <= i < |s[1..]| - 1 && s[1..][i] == '.' && s[1..][i + 1] == '.';
      assert s[i + 1] == '.' && s[i + 1 + 1] == '.';
    }
  }

  /** Gaps to the left or right of a word are gaps of the whole. */
  predicate GapBefore(a: Text) {
    (a != [] && a[0] == '.') || Adjacent(a, '.', '.')
  }

  predicate GapAfter(b: Text) {
    (b != [] && b[|b| - 1] == '.') || Adjacent(b, '.', '.')
  }

  lemma GapAround(a: Text, x: Text, b: Text)
    requires Word(x)
    ensures Gap(a + x + b) <==> GapBefore(a) || GapAfter(b)
  {
    var s := a + x + b;
    if i :| 0 <= i < |s| - 1 && s[i] == '.' && s[i + 1] == '.' {
      if i + 1 < |a| { assert a[i] == '.' && a[i + 1] == '.'; }
      else if i >= |a| + |x| { var j := i - |a| - |x|; assert b[j] == '.' && b[j + 1] == '.'; }
    }
    if Adjacent(a, '.', '.') { var i :| 0 <= i < |a| - 1 && a[i] == '.' && a[i + 1] == '.'; assert s[i] == '.' && s[i + 1] == '.'; }
    if Adjacent(b, '.', '.') {
      var i :| 0 <= i < |b| - 1 && b[i] == '.' && b[i + 1] == '.';
      assert s[i + |a| + |x|] == '.' && s[i + |a| + |x| + 1] == '.';
    }
  }

  lemma GapAfterAround(a: Text, x: Text, b: Text)
    requires Word(x)
    ensures GapAfter(a + x + b) <==> Adjacent(a, '.', '.') || GapAfter(b)
  {
    var s := a + x + b;
    if i :| 0 <= i < |s| - 1 && s[i] == '.' && s[i + 1] == '.' {
      if i + 1 < |a| { assert a[i] == '.' && a[i + 1] == '.'; }
      else if i >= |a| + |x| { var j := i - |a| - |x|; assert b[j] == '.' && b[j + 1] == '.'; }
    }
    if Adjacent(a, '.', '.') { var i :| 0 <= i < |a| - 1 && a[i] == '.' && a[i + 1] == '.'; assert s[i] == '.' && s[i + 1] == '.'; }
    if Adjacent(b, '.', '.') {
      var i :| 0 <= i < |b| - 1 && b[i] == '.' && b[i + 1] == '.';
      assert s[i + |a| + |x|] == '.' && s[i + |a| + |x| + 1] == '.';
    }
  }

  // ----- the replacement does not matter -----

  /** Up to its first placeholder a template is plain text. */
  lemma {:induction false} FirstMark(t: Text) returns (a: Text, b: Text)
    requires HasMark(t) && Balanced(t)
    ensures |b| < |t| && Balanced(b) && '{' !in a && '}' !in a
    ensures forall x :: Replace(t, x) == a + x + Replace(b, x)
  {
    if Marked(t) {
      a, b := [], t[|MARK|..];
      forall x ensures Replace(t, x) == a + x + Replace(b, x) { assert a + x == x; }
    } else {
      var a';
      a', b := FirstMark(t[1..]);
      a := [t[0]] + a';
      forall x ensures Replace(t, x) == a + x + Replace(b, x) {
        Glue([t[0]], a', x);
        Glue([t[0]], a' + x, Replace(b, x));
      }
    }
  }

  /** Without a placeholder nothing is replaced. */
  lemma {:induction false} NoMark(t: Text)
    requires !HasMark(t)
    ensures forall x :: Replace(t, x) == t
  {
    if t != [] {
      NoMark(t[1..]);
      assert t == [t[0]] + t[1..];
    }
  }

  lemma {:induction false} SameFaults(t: Text, x: Text, y: Text)
    requires Balanced(t) && Word(x) && Word(y)
    ensures Bad(Replace(t, x)) <==> Bad(Replace(t, y))
    ensures GapAfter(Replace(t, x)) <==> GapAfter(Replace(t, y))
    decreases |t|
  {
    if HasMark(t) {
      var a, b := FirstMark(t);
      SameFaults(b, x, y);
      BadAround(a, x, Replace(b, x));
      BadAround(a, y, Replace(b, y));
      GapAfterAround(a, x, Replace(b, x));
      GapAfterAround(a, y, Replace(b, y));
    } else {
      NoMark(t);
    }
  }

  /** A subject without bad octets is not blank. */
  lemma GoodIsNotBlank(s: Text)
    requires s != [] && !Bad(s)
    ensures TrimSpace(s) != []
  {
    assert !BadAt(s, 0) && !BadAt(s, |s| - 1);
    assert |s| >= 2 ==> !BadAt(s, |s| - 2);
    assert |s| >= 3 ==> !BadAt(s, |s| - 3);
    assert SpaceTail(s) == 0;
  }

  lemma SubjectIs(s: Text)
    ensures ValidSubject(s) <==> !Bad(s) && !Gap(s)
  {
    EmptyTokenIsGap(s);
    if s != [] && !Bad(s) { GoodIsNotBlank(s); }
  }

  /** For a template with placeholders, any two words yield subjects that are both valid or both not. */
  lemma AnyWordWillDo(t: Text, x: Text, y: Text)
    requires Balanced(t) && HasMark(t) && Word(x) && Word(y)
    ensures ValidSubject(Replace(t, x)) <==> ValidSubject(Replace(t, y))
  {
    SameFaults(t, x, y);
    SubjectIs(Replace(t, x));
    SubjectIs(Replace(t, y));
    var a, b := FirstMark(t);
    SameFaults(b, x, y);
    GapAround(a, x, Replace(b, x));
    GapAround(a, y, Replace(b, y));
  }

  lemma {:induction false} NoBraces(t: Text, x: Text)
    requires Balanced(t) && '{' !in x && '}' !in x
    ensures '{' !in Replace(t, x) && '}' !in Replace(t, x)
    decreases |t|
  {
    if t != [] {
      if Marked(t) { NoBraces(t[|MARK|..], x); } else { NoBraces(t[1..], x); }
    }
  }

  lemma AliasIsWord(x: Text)
    requires ValidAlias(x)
    ensures Word(x) && '{' !in x && '}' !in x
  {
  }

  lemma SampleIsWord()
    ensures Word(SAMPLE) && ValidAlias(SAMPLE)
  {
    assert SAMPLE == ['s', 'a', 'm', 'p', 'l', 'e'];
  }

  /** Derivation is total: a template that passes validation gives every valid alias a valid subject without braces. */
  lemma DerivationIsTotal(t: Text, server: Text)
    requires ValidTemplate(t) && ValidAlias(server)
    ensures Derive(t, server).Ok?
    ensures var s := Derive(t, server).value; ValidSubject(s) && '{' !in s && '}' !in s
  {
    AliasIsWord(server);
    SampleIsWord();
    AnyWordWillDo(t, SAMPLE, server);
    NoBraces(t, server);
  }

  /** The template check looks at one sample only, and that is enough: a balanced template with a placeholder is
      accepted exactly when it suits any one valid alias. */
  lemma TemplateIsAcceptedExactlyWhenAnAliasFits(t: Text, server: Text)
    requires Balanced(t) && HasMark(t) && ValidAlias(server) && TrimSpace(t) != []
    ensures ValidTemplate(t) <==> ValidSubject(Replace(t, server))
  {
    AliasIsWord(server);
    SampleIsWord();
    AnyWordWillDo(t, SAMPLE, server);
  }

  // ----- no two aliases share a subject -----

  lemma {:induction false} ReplaceLength(t: Text, x: Text, y: Text)
    requires |x| <= |y|
    ensures |Replace(t, x)| <= |Replace(t, y)|
    ensures HasMark(t) && |x| < |y| ==> |Replace(t, x)| < |Replace(t, y)|
    decreases |t|
  {
    if t != [] {
      if Marked(t) { ReplaceLength(t[|MARK|..], x, y); } else { ReplaceLength(t[1..], x, y); }
    }
  }

  /** Two aliases with the same subject are the same alias. */
  lemma DerivationIsInjective(t: Text, x: Text, y: Text)
    requires Derive(t, x).Ok? && Derive(t, y).Ok? && Derive(t, x).value == Derive(t, y).value
    ensures x == y
  {
    if |x| < |y| { ReplaceLength(t, x, y); }
    if |y| < |x| { ReplaceLength(t, y, x); }
    var a, b := FirstMark(t);
    SameMiddle(a, x, Replace(b, x), y, Replace(b, y));
  }

  lemma SameMiddle(a: Text, x: Text, b: Text, y: Text, c: Text)
    requires a + x + b == a + y + c && |x| == |y|
    ensures x == y
  {
    assert (a + x + b)[|a|..|a| + |x|] == x;
    assert (a + y + c)[|a|..|a| + |y|] == y;
  }

  // ----- what is derived -----

  /** Texts with something between them. */
  function Between(pieces: seq<Text>, x: Text): Text {
    if pieces == [] then [] else if |pieces| == 1 then pieces[0] else pieces[0] + (x + Between(pieces[1..], x))
  }

  lemma {:induction false} ReplaceSkips(a: Text, t: Text, x: Text)
    requires '{' !in a
    ensures Replace(a + t, x) == a + Replace(t, x)
  {
    if a == [] {
      assert a + t == t;
    } else {
      assert a[0] in a && '{' !in a[1..];
      assert (a + t)[0] == a[0] && (a + t)[1..] == a[1..] + t;
      NotMarked(a + t);
      ReplaceSkips(a[1..], t, x);
      assert a == [a[0]] + a[1..];
      Glue([a[0]], a[1..], Replace(t, x));
    }
  }

  lemma MarkReplaced(t: Text, x: Text)
    ensures Replace(MARK + t, x) == x + Replace(t, x)
  {
    assert (MARK + t)[..|MARK|] == MARK && (MARK + t)[|MARK|..] == t;
  }

  /** Every placeholder becomes the alias, and nothing else changes: a template that is pieces of text with placeholders
      between them is rendered as those pieces with the alias between them. */
  lemma {:induction false} EveryPlaceholderIsReplaced(pieces: seq<Text>, x: Text)
    requires forall i :: 0 <= i < |pieces| ==> '{' !in pieces[i]
    ensures Replace(Between(pieces, MARK), x) == Between(pieces, x)
  {
    if |pieces| == 1 {
      ReplaceSkips(pieces[0], [], x);
      assert pieces[0] + [] == pieces[0];
    } else if |pieces| > 1 {
      EveryPlaceholderIsReplaced(pieces[1..], x);
      ReplaceSkips(pieces[0], MARK + Between(pieces[1..], MARK), x);
      MarkReplaced(Between(pieces[1..], MARK), x);
    }
  }

  /** No white space, no control character and no wildcard anywhere. */
  ghost predicate Tame(s: Text) {
    && '*' !in s && '>' !in s && CP.NoControl(s)
    && forall i: nat, c :: CP.WhiteSpace(c) ==> !CP.Stands(s, i, c)
  }

  lemma TameIs(s: Text)
    ensures Tame(s) <==> !Bad(s)
  {
    CP.NoControlIs(s);
    if i :| 0 <= i < |s| && BadAt(s, i) {
      if SpaceLen(s, i) > 0 { var c := CP.PointOfSpace(s, i); }
    }
    if !Bad(s) { GoodIsTame(s); }
  }

  lemma GoodIsTame(s: Text)
    requires !Bad(s)
    ensures Tame(s)
  {
    CP.NoControlIs(s);
    forall i | 0 <= i < |s| ensures s[i] != '*' && s[i] != '>' && !ControlAt(s, i) { assert !BadAt(s, i); }
    forall i: nat, c | CP.WhiteSpace(c) ensures !CP.Stands(s, i, c) {
      if CP.Stands(s, i, c) {
        CP.SpaceOfPoint(s, i, c);
        assert BadAt(s, i);
      }
    }
  }

  /** Exactly the texts without white space, control characters and wildcards, and without an empty token, are subjects. */
  lemma SubjectIsValidExactlyWhen(s: Text)
    ensures ValidSubject(s) <==> Tame(s) && s != [] && s[0] != '.' && s[|s| - 1] != '.' && !Adjacent(s, '.', '.')
  {
    SubjectIs(s);
    TameIs(s);
  }

  // ----- as it runs -----

  /** strings.IndexByte. */
  method IndexByte(s: Text, c: Octet) returns (k: int)
    ensures -1 <= k < |s|
    ensures if k < 0 then c !in s else s[k] == c && c !in s[..k]
  {
    for i := 0 to |s|
      invariant c !in s[..i]
    {
      if s[i] == c { return i; }
      assert s[..i + 1] == s[..i] + [s[i]];
    }
    assert s[..|s|] == s;
    k := -1;
  }

  /** The brace scan, with its index and its flag. */
  method ScanBraces(t: Text) returns (ok: bool, seen: bool)
    ensures ok == Balanced(t)
    ensures ok ==> seen == HasMark(t)
  {
    seen := false;
    var i := 0;
    while i < |t|
      invariant 0 <= i <= |t|
      invariant Balanced(t) == Balanced(t[i..])
      invariant HasMark(t) == (seen || HasMark(t[i..]))
    {
      ghost var rest := t[i..];
      assert rest[0] == t[i] && rest[1..] == t[i + 1..];
      if t[i] == '{' {
        var end := IndexByte(t[i + 1..], '}');
        MarkIs(rest, end);
        if end < 0 { return false, seen; }
        if t[i + 1..i + 1 + end] != "server" { return false, seen; }
        seen := true;
        assert rest[|MARK|..] == t[i + end + 2..];
        i := i + end + 1;
      } else if t[i] == '}' {
        NotMarked(rest);
        return false, seen;
      } else {
        NotMarked(rest);
      }
      i := i + 1;
    }
    ok := true;
  }

  lemma NotMarked(t: Text)
    requires t != [] && t[0] != '{'
    ensures !Marked(t)
  {
    assert MARK[0] == '{';
    assert |t| >= |MARK| ==> t[..|MARK|][0] == t[0];
  }

  /** An opening brace is fine exactly when the text up to the next closing brace is the placeholder's name. */
  lemma MarkIs(t: Text, end: int)
    requires t != [] && t[0] == '{' && -1 <= end < |t| - 1
    requires if end < 0 then '}' !in t[1..] else t[1 + end] == '}' && '}' !in t[1..][..end]
    ensures Marked(t) <==> end >= 0 && t[1..1 + end] == "server"
    ensures Marked(t) ==> |MARK| == end + 2
    ensures !Marked(t) ==> !Balanced(t)
    ensures Marked(t) ==> HasMark(t)
  {
    assert MARK == ['{'] + "server" + ['}'] && |"server"| == 6 && '}' !in "server";
    assert |t| >= 8 && end == 6 ==> t[..8] == ['{'] + t[1..7] + [t[7]];
    if Marked(t) {
      forall k | 1 <= k < 7 ensures t[k] != '}' {
        assert t[k] == t[..8][k] == MARK[k] == "server"[k - 1];
      }
      assert t[7] == t[..8][7] == '}';
      assert t[1..][6] == '}' && end >= 6;
      assert t[1..7] == t[..8][1..7] == MARK[1..7] == "server";
    }
  }
}
