/** Runes by their code points: UTF-8 (section 3 of RFC 3629) and the White_Space and Cc properties of Unicode.  The
    octet patterns of Runes.dfy are exactly these. */
module CodePoints {
  import opened Octets
  import opened Runes

  /** Unicode scalar values. */
  predicate Scalar(c: int) {
    0 <= c < 0xD800 || 0xE000 <= c <= 0x10FFFF
  }

  function Utf8(c: int): (s: Text)
    requires 0 <= c <= 0x10FFFF
    ensures 1 <= |s| <= 4
  {
    if c < 0x80 then [c as char]
    else if c < 0x800 then [(0xC0 + c / 0x40) as char, (0x80 + c % 0x40) as char]
    else if c < 0x1_0000 then [(0xE0 + c / 0x1000) as char, (0x80 + c / 0x40 % 0x40) as char, (0x80 + c % 0x40) as char]
    else [(0xF0 + c / 0x4_0000) as char, (0x80 + c / 0x1000 % 0x40) as char, (0x80 + c / 0x40 % 0x40) as char, (0x80 + c % 0x40) as char]
  }

  /** unicode.IsSpace. */
  predicate WhiteSpace(c: int) {
    || 9 <= c <= 13 || c == 0x20 || c == 0x85 || c == 0xA0 || c == 0x1680 || 0x2000 <= c <= 0x200A
    || c == 0x2028 || c == 0x2029 || c == 0x202F || c == 0x205F || c == 0x3000
  }

  /** unicode.IsControl. */
  predicate Control(c: int) {
    0 <= c < 0x20 || 0x7F <= c < 0xA0
  }

  /** The rune `c` stands at octet `i`. */
  predicate Stands(s: Text, i: nat, c: int)
    requires 0 <= c <= 0x10FFFF
  {
    i + |Utf8(c)| <= |s| && s[i..i + |Utf8(c)|] == Utf8(c)
  }

  lemma StandsOctets(s: Text, i: nat, c: int)
    requires 0 <= c <= 0x10FFFF
    ensures Stands(s, i, c) <==> i + |Utf8(c)| <= |s| && forall k :: 0 <= k < |Utf8(c)| ==> s[i + k] == Utf8(c)[k]
  {
  }

  lemma AtIs(s: Text, i: nat, a: int, b: int)
    ensures At(s, i, [a, b]) <==> i + 2 <= |s| && s[i] as int == a && s[i + 1] as int == b
  {
    if At(s, i, [a, b]) { assert s[i + 0] as int == [a, b][0] && s[i + 1] as int == [a, b][1]; }
  }

  // ----- white space and control characters -----

  /** The code point of a white-space rune. */
  lemma PointOfSpace(s: Text, i: nat) returns (c: int)
    requires SpaceLen(s, i) > 0
    ensures WhiteSpace(c) && |Utf8(c)| == SpaceLen(s, i) && Stands(s, i, c)
  {
    AtIs(s, i, 0xC2, 0x85);
    AtIs(s, i, 0xC2, 0xA0);
    var n := SpaceLen(s, i);
    if n == 1 {
      c := s[i] as int;
    } else if n == 2 {
      c := s[i + 1] as int;
    } else {
      c := PointOfWide(s[i] as int, s[i + 1] as int, s[i + 2] as int);
    }
    StandsOctets(s, i, c);
  }

  lemma PointOfWide(x: int, y: int, z: int) returns (c: int)
    requires WideSpace(x, y, z)
    ensures WhiteSpace(c) && Utf8(c) == [x as char, y as char, z as char]
  {
    c := (x - 0xE0) * 0x1000 + (y - 0x80) * 0x40 + (z - 0x80);
  }

  /** The octets of a white-space rune. */
  lemma NarrowOctets(c: int)
    requires WhiteSpace(c) && c < 0x800
    ensures Utf8(c) == if c < 0x80 then [c as char] else [0xC2 as char, c as char]
  {
  }

  lemma WideOctets(c: int)
    requires WhiteSpace(c) && c >= 0x800
    ensures |Utf8(c)| == 3 && WideSpace(Utf8(c)[0] as int, Utf8(c)[1] as int, Utf8(c)[2] as int)
  {
  }

  lemma WideSpaceLen(s: Text, i: nat)
    requires i + 3 <= |s| && WideSpace(s[i] as int, s[i + 1] as int, s[i + 2] as int)
    ensures SpaceLen(s, i) == 3
  {
    AtIs(s, i, 0xC2, 0x85);
    AtIs(s, i, 0xC2, 0xA0);
  }

  lemma NarrowSpaceLen(s: Text, i: nat, c: int)
    requires WhiteSpace(c) && c < 0x800
    requires if c < 0x80 then i < |s| && s[i] as int == c else i + 2 <= |s| && s[i] as int == 0xC2 && s[i + 1] as int == c
    ensures SpaceLen(s, i) == if c < 0x80 then 1 else 2
  {
    AtIs(s, i, 0xC2, 0x85);
    AtIs(s, i, 0xC2, 0xA0);
  }

  lemma SpaceOfPoint(s: Text, i: nat, c: int)
    requires WhiteSpace(c) && Stands(s, i, c)
    ensures SpaceLen(s, i) == |Utf8(c)|
  {
    StandsOctets(s, i, c);
    if c < 0x800 {
      NarrowOctets(c);
      NarrowSpaceLen(s, i, c);
    } else {
      WideOctets(c);
      WideSpaceLen(s, i);
    }
  }

  lemma ControlIs(s: Text, i: nat)
    ensures ControlAt(s, i) <==> exists c :: Control(c) && Stands(s, i, c)
  {
    if ControlAt(s, i) {
      var c := if s[i] as int == 0xC2 then s[i + 1] as int else s[i] as int;
      StandsOctets(s, i, c);
    }
    if c :| Control(c) && Stands(s, i, c) { StandsOctets(s, i, c); }
  }

  /** No control character stands anywhere. */
  ghost predicate NoControl(s: Text) {
    forall i: nat, c :: Control(c) ==> !Stands(s, i, c)
  }

  lemma NoControlIs(s: Text)
    ensures NoControl(s) <==> !HasControl(s)
  {
    if i :| 0 <= i < |s| && ControlAt(s, i) { ControlIs(s, i); }
    if i: nat, c :| Control(c) && Stands(s, i, c) { ControlIs(s, i); }
  }

  // ----- trimming -----

  predicate AllWhite(cs: seq<int>) {
    forall i :: 0 <= i < |cs| ==> WhiteSpace(cs[i])
  }

  function Spell(cs: seq<int>): Text
    requires AllWhite(cs)
  {
    if cs == [] then [] else Utf8(cs[0]) + Spell(cs[1..])
  }

  ghost predicate StartsWhite(s: Text) {
    exists c :: WhiteSpace(c) && Stands(s, 0, c)
  }

  predicate EndsIn(s: Text, c: int) {
    WhiteSpace(c) && |Utf8(c)| <= |s| && Stands(s, |s| - |Utf8(c)|, c)
  }

  ghost predicate EndsWhite(s: Text) {
    exists c :: EndsIn(s, c)
  }

  /** `v` is `s` without white space around it. */
  ghost predicate Trims(s: Text, v: Text) {
    && !StartsWhite(v) && !EndsWhite(v)
    && exists a, b :: AllWhite(a) && AllWhite(b) && s == Spell(a) + v + Spell(b)
  }

  lemma StartsIs(s: Text)
    ensures StartsWhite(s) <==> SpaceLen(s, 0) > 0
  {
    if SpaceLen(s, 0) > 0 { var c := PointOfSpace(s, 0); }
    if c :| WhiteSpace(c) && Stands(s, 0, c) { SpaceOfPoint(s, 0, c); }
  }

  /** No white-space rune ends within a longer one. */
  lemma TailIsWide(s: Text)
    requires |s| >= 3 && WideSpace(s[|s| - 3] as int, s[|s| - 2] as int, s[|s| - 1] as int)
    ensures SpaceTail(s) == 3
  {
    var n := |s|;
    WideSpaceLen(s, n - 3);
    AtIs(s, n - 1, 0xC2, 0x85);
    AtIs(s, n - 1, 0xC2, 0xA0);
    AtIs(s, n - 2, 0xC2, 0x85);
    AtIs(s, n - 2, 0xC2, 0xA0);
  }

  lemma TailIsNarrow(s: Text, c: int)
    requires WhiteSpace(c) && c < 0x800
    requires if c < 0x80 then |s| >= 1 && s[|s| - 1] as int == c else |s| >= 2 && s[|s| - 2] as int == 0xC2 && s[|s| - 1] as int == c
    ensures SpaceTail(s) == if c < 0x80 then 1 else 2
  {
    var n := |s|;
    AtIs(s, n - 1, 0xC2, 0x85);
    AtIs(s, n - 1, 0xC2, 0xA0);
    if c >= 0x80 {
      AtIs(s, n - 2, 0xC2, 0x85);
      AtIs(s, n - 2, 0xC2, 0xA0);
    }
  }

  lemma TailOfPoint(s: Text, c: int)
    requires EndsIn(s, c)
    ensures SpaceTail(s) == |Utf8(c)|
  {
    StandsOctets(s, |s| - |Utf8(c)|, c);
    if c < 0x800 {
      NarrowOctets(c);
      TailIsNarrow(s, c);
    } else {
      WideOctets(c);
      TailIsWide(s);
    }
  }

  lemma PointOfTail(s: Text) returns (c: int)
    requires SpaceTail(s) > 0
    ensures EndsIn(s, c) && |Utf8(c)| == SpaceTail(s)
  {
    c := PointOfSpace(s, |s| - SpaceTail(s));
  }

  lemma EndsIs(s: Text)
    ensures EndsWhite(s) <==> SpaceTail(s) > 0
  {
    if SpaceTail(s) > 0 { var c := PointOfTail(s); }
    if c :| EndsIn(s, c) { TailOfPoint(s, c); }
  }

  lemma StandsFirst(c: int, t: Text)
    requires 0 <= c <= 0x10FFFF
    ensures Stands(Utf8(c) + t, 0, c) && (Utf8(c) + t)[|Utf8(c)|..] == t
  {
  }

  lemma {:induction false} TrimLeftSkips(cs: seq<int>, t: Text)
    requires AllWhite(cs)
    ensures TrimLeft(Spell(cs) + t) == TrimLeft(t)
  {
    if cs == [] {
      assert Spell(cs) + t == t;
    } else {
      Glue(Utf8(cs[0]), Spell(cs[1..]), t);
      StandsFirst(cs[0], Spell(cs[1..]) + t);
      SpaceOfPoint(Spell(cs) + t, 0, cs[0]);
      TrimLeftSkips(cs[1..], t);
    }
  }

  lemma {:induction false} SpellAppend(cs: seq<int>, c: int)
    requires AllWhite(cs) && WhiteSpace(c)
    ensures AllWhite(cs + [c]) && Spell(cs + [c]) == Spell(cs) + Utf8(c)
  {
    if cs == [] {
      assert [] + [c] == [c] && [c][1..] == [];
      assert Spell([c]) == Utf8(c) + Spell([]);
    } else {
      assert (cs + [c])[1..] == cs[1..] + [c];
      SpellAppend(cs[1..], c);
      Glue(Utf8(cs[0]), Spell(cs[1..]), Utf8(c));
    }
  }

  lemma {:induction false} TrimRightSkips(t: Text, cs: seq<int>)
    requires AllWhite(cs)
    ensures TrimRight(t + Spell(cs)) == TrimRight(t)
    decreases |cs|
  {
    if cs == [] {
      assert t + Spell(cs) == t;
    } else {
      var front, c := cs[..|cs| - 1], cs[|cs| - 1];
      assert cs == front + [c];
      SpellAppend(front, c);
      Glue(t, Spell(front), Utf8(c));
      var s := t + Spell(front) + Utf8(c);
      assert s[|s| - |Utf8(c)|..|s|] == Utf8(c) && s[..|s| - |Utf8(c)|] == t + Spell(front);
      assert EndsIn(s, c);
      TailOfPoint(s, c);
      TrimRightSkips(t, front);
    }
  }

  /** A rune of white space does not begin like the rest of one. */
  lemma LeadFirst(cs: seq<int>)
    requires AllWhite(cs) && cs != []
    ensures Spell(cs) != [] && !(0x80 <= Spell(cs)[0] as int < 0xC0)
  {
    assert Spell(cs)[0] == Utf8(cs[0])[0];
  }

  /** White space behind a text does not complete a white-space rune at its front. */
  lemma StillNoStart(v: Text, cs: seq<int>)
    requires v != [] && SpaceLen(v, 0) == 0 && AllWhite(cs)
    ensures SpaceLen(v + Spell(cs), 0) == 0
  {
    var s := v + Spell(cs);
    if cs != [] { LeadFirst(cs); }
    assert forall k :: 0 <= k < |v| ==> s[k] == v[k];
    assert cs != [] ==> s[|v|] == Spell(cs)[0];
    AtIs(s, 0, 0xC2, 0x85);
    AtIs(s, 0, 0xC2, 0xA0);
    AtIs(v, 0, 0xC2, 0x85);
    AtIs(v, 0, 0xC2, 0xA0);
  }

  /** White space at the front, as a code point. */
  lemma FrontSpace(s: Text) returns (c: int, rest: Text)
    requires SpaceLen(s, 0) > 0
    ensures WhiteSpace(c) && s == Utf8(c) + rest && |rest| < |s| && rest == s[SpaceLen(s, 0)..]
  {
    c := PointOfSpace(s, 0);
    rest := s[SpaceLen(s, 0)..];
    assert s == s[..SpaceLen(s, 0)] + rest;
  }

  lemma SuffixIs(s: Text, n: nat, t: Text)
    requires n + |t| == |s| && s[n..n + |t|] == t
    ensures s == s[..n] + t
  {
  }

  lemma BackSpace(s: Text) returns (c: int, rest: Text)
    requires SpaceTail(s) > 0
    ensures WhiteSpace(c) && s == rest + Utf8(c) && |rest| < |s| && rest == s[..|s| - SpaceTail(s)]
  {
    c := PointOfTail(s);
    rest := s[..|s| - SpaceTail(s)];
    SuffixIs(s, |s| - SpaceTail(s), Utf8(c));
  }

  lemma SpellCons(c: int, cs: seq<int>)
    requires AllWhite(cs) && WhiteSpace(c)
    ensures AllWhite([c] + cs) && Spell([c] + cs) == Utf8(c) + Spell(cs)
  {
    assert ([c] + cs)[1..] == cs;
  }

  lemma {:induction false} TrimLeftSpells(s: Text) returns (cs: seq<int>)
    ensures AllWhite(cs) && s == Spell(cs) + TrimLeft(s)
    decreases |s|
  {
    cs := [];
    if SpaceLen(s, 0) > 0 {
      var c, rest := FrontSpace(s);
      cs := TrimLeftSpells(rest);
      Glue(Utf8(c), Spell(cs), TrimLeft(rest));
      SpellCons(c, cs);
      cs := [c] + cs;
    }
  }

  lemma {:induction false} TrimRightSpells(s: Text) returns (cs: seq<int>)
    ensures AllWhite(cs) && s == TrimRight(s) + Spell(cs)
    decreases |s|
  {
    cs := [];
    if SpaceTail(s) > 0 {
      var c, rest := BackSpace(s);
      cs := TrimRightSpells(rest);
      Glue(TrimRight(rest), Spell(cs), Utf8(c));
      SpellAppend(cs, c);
      cs := cs + [c];
    }
  }

  /** strings.TrimSpace, by code points: what is left neither begins nor ends with white space, and only white space has
      been taken away around it. */
  lemma TrimSpaceIs(s: Text, v: Text)
    ensures TrimSpace(s) == v <==> Trims(s, v)
  {
    if TrimSpace(s) == v {
      TrimmedIsTrimmed(s);
      StartsIs(v);
      EndsIs(v);
      var a := TrimLeftSpells(s);
      var b := TrimRightSpells(TrimLeft(s));
      Glue(Spell(a), v, Spell(b));
    }
    if Trims(s, v) {
      var a, b :| AllWhite(a) && AllWhite(b) && s == Spell(a) + v + Spell(b);
      StartsIs(v);
      EndsIs(v);
      Glue(Spell(a), v, Spell(b));
      TrimLeftSkips(a, v + Spell(b));
      if v == [] {
        TrimLeftSkips(b, []);
        assert v + Spell(b) == Spell(b) + [];
      } else {
        StillNoStart(v, b);
      }
      TrimRightSkips(v, b);
    }
  }

  // ----- well-formed runes -----

  lemma ScalarOctets(c: int)
    requires Scalar(c)
    ensures var r := Utf8(c);
            && Announced(r[0] as int) == |r| && (|r| >= 2 ==> Second(r[0] as int, r[1]))
            && (|r| >= 3 ==> Continues(r[2])) && (|r| >= 4 ==> Continues(r[3]))
  {
  }

  lemma RuneLenIs(r: Text, t: Text)
    requires 1 <= |r| <= 4 && Announced(r[0] as int) == |r| && (|r| >= 2 ==> Second(r[0] as int, r[1]))
    requires (|r| >= 3 ==> Continues(r[2])) && (|r| >= 4 ==> Continues(r[3]))
    ensures RuneLen(r + t) == |r|
  {
  }

  /** Every scalar value is accepted. */
  lemma RuneOfPoint(c: int, t: Text)
    requires Scalar(c)
    ensures RuneLen(Utf8(c) + t) == |Utf8(c)|
  {
    ScalarOctets(c);
    RuneLenIs(Utf8(c), t);
  }

  /** Base 64. */
  lemma Digits(a: int, b: int)
    requires 0 <= b < 0x40
    ensures (a * 0x40 + b) / 0x40 == a && (a * 0x40 + b) % 0x40 == b
  {
  }

  lemma PointOfTwo(a: int, x: int)
    requires 2 <= a < 0x20 && 0 <= x < 0x40
    ensures var c := a * 0x40 + x; Scalar(c) && Utf8(c) == [(0xC0 + a) as char, (0x80 + x) as char]
  {
    Digits(a, x);
  }

  lemma PointOfThree(a: int, x: int, y: int)
    requires 0 <= a < 0x10 && 0 <= x < 0x40 && 0 <= y < 0x40 && (a == 0 ==> 0x20 <= x) && (a == 0xD ==> x < 0x20)
    ensures var c := (a * 0x40 + x) * 0x40 + y; Scalar(c) && Utf8(c) == [(0xE0 + a) as char, (0x80 + x) as char, (0x80 + y) as char]
  {
    Digits(a * 0x40 + x, y);
    Digits(a, x);
    var c := (a * 0x40 + x) * 0x40 + y;
    assert c / 0x1000 == a;
  }

  lemma PointOfFour(a: int, x: int, y: int, z: int)
    requires 0 <= a <= 4 && 0 <= x < 0x40 && 0 <= y < 0x40 && 0 <= z < 0x40 && (a == 0 ==> 0x10 <= x) && (a == 4 ==> x < 0x10)
    ensures var c := ((a * 0x40 + x) * 0x40 + y) * 0x40 + z;
            Scalar(c) && Utf8(c) == [(0xF0 + a) as char, (0x80 + x) as char, (0x80 + y) as char, (0x80 + z) as char]
  {
    Digits((a * 0x40 + x) * 0x40 + y, z);
    Digits(a * 0x40 + x, y);
    Digits(a, x);
    var c := ((a * 0x40 + x) * 0x40 + y) * 0x40 + z;
    assert c / 0x1000 == a * 0x40 + x && c / 0x4_0000 == a;
  }

  /** And every rune that ranging over a string accepts is the UTF-8 of one. */
  lemma PointOfRune(s: Text) returns (c: int)
    requires s != [] && RuneLen(s) > 0
    ensures Scalar(c) && s[..RuneLen(s)] == Utf8(c)
  {
    var n, a := RuneLen(s), s[0] as int;
    if n == 1 {
      c := a;
    } else if n == 2 {
      PointOfTwo(a - 0xC0, s[1] as int - 0x80);
      c := (a - 0xC0) * 0x40 + (s[1] as int - 0x80);
    } else if n == 3 {
      PointOfThree(a - 0xE0, s[1] as int - 0x80, s[2] as int - 0x80);
      c := ((a - 0xE0) * 0x40 + (s[1] as int - 0x80)) * 0x40 + (s[2] as int - 0x80);
    } else {
      PointOfFour(a - 0xF0, s[1] as int - 0x80, s[2] as int - 0x80, s[3] as int - 0x80);
      c := (((a - 0xF0) * 0x40 + (s[1] as int - 0x80)) * 0x40 + (s[2] as int - 0x80)) * 0x40 + (s[3] as int - 0x80);
    }
  }
}
