/** White space and control characters of UTF-8 text, decided on its octets (RFC 3629, section 4: a
    leading octet is never a continuation octet, so the patterns below occur only as whole runes). */
module Runes {
  import opened Octets

  predicate At(s: Text, i: nat, pattern: seq<int>) {
    i + |pattern| <= |s| && forall k :: 0 <= k < |pattern| ==> s[i + k] as int == pattern[k]
  }

  /** The length of the white-space rune that starts at `i`, or 0. */
  function SpaceLen(s: Text, i: nat): (n: nat)
    ensures i + n <= |s| || n == 0
  {
    if i >= |s| then 0
    else
      var c := s[i] as int;
      if 9 <= c <= 13 || c == 32 then 1
      else if At(s, i, [0xC2, 0x85]) || At(s, i, [0xC2, 0xA0]) then 2
      else if i + 3 <= |s| && WideSpace(c, s[i + 1] as int, s[i + 2] as int) then 3
      else 0
  }

  predicate WideSpace(a: int, b: int, c: int) {
    || (a == 0xE1 && b == 0x9A && c == 0x80)
    || (a == 0xE2 && b == 0x80 && (0x80 <= c <= 0x8A || c == 0xA8 || c == 0xA9 || c == 0xAF))
    || (a == 0xE2 && b == 0x81 && c == 0x9F)
    || (a == 0xE3 && b == 0x80 && c == 0x80)
  }

  /** A control character starts at `i`. */
  predicate ControlAt(s: Text, i: nat) {
    i < |s| &&
    (s[i] as int < 0x20 || s[i] as int == 0x7F
     || (s[i] as int == 0xC2 && i + 1 < |s| && 0x80 <= s[i + 1] as int <= 0x9F))
  }

  predicate HasControl(s: Text) {
    exists i :: 0 <= i < |s| && ControlAt(s, i)
  }

  function TrimLeft(s: Text): (r: Text)
    ensures |r| <= |s| && r == s[|s| - |r|..]
    ensures SpaceLen(r, 0) == 0
  {
    if SpaceLen(s, 0) > 0 then TrimLeft(s[SpaceLen(s, 0)..]) else s
  }

  /** The length of the white-space rune that ends the text, or 0. */
  function SpaceTail(s: Text): (n: nat)
    ensures n <= |s|
  {
    if |s| >= 1 && SpaceLen(s, |s| - 1) == 1 then 1
    else if |s| >= 2 && SpaceLen(s, |s| - 2) == 2 then 2
    else if |s| >= 3 && SpaceLen(s, |s| - 3) == 3 then 3
    else 0
  }

  function TrimRight(s: Text): (r: Text)
    ensures |r| <= |s| && r == s[..|r|]
    ensures SpaceTail(r) == 0
  {
    if SpaceTail(s) > 0 then TrimRight(s[..|s| - SpaceTail(s)]) else s
  }

  /** strings.TrimSpace. */
  function TrimSpace(s: Text): Text {
    TrimRight(TrimLeft(s))
  }

  /** Dropping a tail cannot complete a white-space rune at the front. */
  lemma PrefixStartsWithoutSpace(s: Text, n: nat)
    requires n <= |s| && SpaceLen(s, 0) == 0
    ensures SpaceLen(s[..n], 0) == 0
  {
  }

  lemma TrimmedIsTrimmed(s: Text)
    ensures SpaceLen(TrimSpace(s), 0) == 0 && SpaceTail(TrimSpace(s)) == 0
  {
    PrefixStartsWithoutSpace(TrimLeft(s), |TrimSpace(s)|);
  }

  lemma TrimSpaceIdempotent(s: Text)
    ensures TrimSpace(TrimSpace(s)) == TrimSpace(s)
  {
    TrimmedIsTrimmed(s);
  }

  // ----- ranging over a string -----

  predicate Continues(c: Octet) {
    0x80 <= c as int <= 0xBF
  }

  /** The second octet of a rune that begins with `a` (RFC 3629, section 4). */
  predicate Second(a: int, c: Octet) {
    if a == 0xE0 then 0xA0 <= c as int <= 0xBF
    else if a == 0xED then 0x80 <= c as int <= 0x9F
    else if a == 0xF0 then 0x90 <= c as int <= 0xBF
    else if a == 0xF4 then 0x80 <= c as int <= 0x8F
    else Continues(c)
  }

  /** The length that the first octet of a rune announces, or 0. */
  function Announced(a: int): (n: nat)
    ensures n <= 4 && (n == 1 <==> 0 <= a < 0x80)
  {
    if 0 <= a < 0x80 then 1
    else if 0xC2 <= a <= 0xDF then 2
    else if 0xE0 <= a <= 0xEF then 3
    else if 0xF0 <= a <= 0xF4 then 4
    else 0
  }

  /** The length of the well-formed rune that starts the text, or 0. */
  function RuneLen(s: Text): (n: nat)
    requires s != []
    ensures n <= |s| && n <= 4
  {
    var n := Announced(s[0] as int);
    if n <= |s| && (n >= 2 ==> Second(s[0] as int, s[1])) && (n >= 3 ==> Continues(s[2])) && (n >= 4 ==> Continues(s[3]))
    then n else 0
  }

  /** U+FFFD. */
  const REPLACEMENT: Text := [0xEF as char, 0xBF as char, 0xBD as char]

  /** The rune with which ranging over the text begins, as it is written back, and how many octets it takes. */
  function FirstRune(s: Text): (Text, nat)
    requires s != []
  {
    if RuneLen(s) > 0 then (s[..RuneLen(s)], RuneLen(s)) else (REPLACEMENT, 1)
  }

  /** All runes of the text, written back: every octet that belongs to none becomes U+FFFD. */
  function Sanitize(s: Text): Text {
    if s == [] then [] else FirstRune(s).0 + Sanitize(s[FirstRune(s).1..])
  }

  /** UTF-8. */
  predicate WellFormed(s: Text) {
    s == [] || (RuneLen(s) > 0 && WellFormed(s[RuneLen(s)..]))
  }

  /** A rune is decided by its own octets. */
  lemma RuneThen(r: Text, s: Text)
    requires r != [] && RuneLen(r) == |r|
    ensures RuneLen(r + s) == |r| && (r + s)[|r|..] == s && (r + s)[..|r|] == r
  {
  }

  lemma RuneAlone(s: Text)
    requires s != [] && RuneLen(s) > 0
    ensures RuneLen(s[..RuneLen(s)]) == RuneLen(s)
  {
  }

  lemma RuneStart(s: Text)
    requires s != []
    ensures var (r, n) := FirstRune(s); r != [] && RuneLen(r) == |r| && 0 < n <= |s| && |r| >= n && (|r| == n ==> r == s[..n])
  {
    if RuneLen(s) > 0 { RuneAlone(s); }
  }

  lemma {:induction false} SanitizeIsWellFormed(s: Text)
    ensures WellFormed(Sanitize(s)) && |Sanitize(s)| >= |s|
  {
    if s != [] {
      RuneStart(s);
      var (r, n) := FirstRune(s);
      SanitizeIsWellFormed(s[n..]);
      RuneThen(r, Sanitize(s[n..]));
    }
  }

  /** Exactly the well-formed texts are left unchanged. */
  lemma {:induction false} FixedExactlyWhenWellFormed(s: Text)
    ensures Sanitize(s) == s <==> WellFormed(s)
  {
    SanitizeIsWellFormed(s);
    if s != [] && WellFormed(s) {
      FixedExactlyWhenWellFormed(s[RuneLen(s)..]);
      assert s == s[..RuneLen(s)] + s[RuneLen(s)..];
    }
  }

  /** An octet below 0x80 ends whatever rune comes before it. */
  lemma CutShort(a: Text, c: Octet, b: Text)
    requires a != [] && c as int < 0x80
    ensures RuneLen(a + [c] + b) == RuneLen(a) && (a + [c] + b)[..RuneLen(a)] == a[..RuneLen(a)]
  {
    var s := a + [c] + b;
    assert s[|a|] == c && forall i :: 0 <= i < |a| ==> s[i] == a[i];
  }

  lemma {:induction false} AsciiSplits(a: Text, c: Octet, b: Text)
    requires c as int < 0x80
    ensures Sanitize(a + [c] + b) == Sanitize(a) + ([c] + Sanitize(b))
    decreases |a|
  {
    var s := a + [c] + b;
    if a == [] {
      assert s[..1] == [c] && s[1..] == b;
    } else {
      CutShort(a, c, b);
      RuneStart(a);
      var (r, n) := FirstRune(a);
      assert FirstRune(s) == (r, n) && s[n..] == a[n..] + [c] + b;
      AsciiSplits(a[n..], c, b);
      Glue(r, Sanitize(a[n..]), [c] + Sanitize(b));
    }
  }

  lemma AsciiStart(c: Octet, b: Text)
    requires c as int < 0x80
    ensures Sanitize([c] + b) == [c] + Sanitize(b)
  {
    assert ([c] + b)[..1] == [c] && ([c] + b)[1..] == b;
  }

  lemma AsciiEnd(a: Text, c: Octet)
    requires c as int < 0x80
    ensures Sanitize(a + [c]) == Sanitize(a) + [c]
  {
    AsciiSplits(a, c, []);
    assert a + [c] + [] == a + [c] && [c] + Sanitize([]) == [c];
  }

  lemma CutAt(a: Text, n: nat, b: Text)
    requires n <= |a|
    ensures a + b == a[..n] + (a[n..] + b) && a == a[..n] + a[n..]
  {
  }

  lemma {:induction false} WellFormedAppend(a: Text, b: Text)
    requires WellFormed(a) && WellFormed(b)
    ensures WellFormed(a + b)
    decreases |a|
  {
    if a == [] {
      assert a + b == b;
    } else {
      var n := RuneLen(a);
      RuneAlone(a);
      WellFormedAppend(a[n..], b);
      RuneThen(a[..n], a[n..] + b);
      CutAt(a, n, b);
    }
  }

  lemma SameParts(x: Text, y: Text, a: Text, c: Octet, b: Text)
    requires x + ([c] + y) == a + [c] + b && |x| >= |a| && |y| >= |b|
    ensures x == a && y == b
  {
    var s := a + [c] + b;
    assert |s| == |x| + 1 + |y| && x == s[..|x|] && y == s[|x| + 1..];
    assert a == s[..|a|] && b == s[|a| + 1..];
  }

  lemma WellFormedParts(a: Text, c: Octet, b: Text)
    requires c as int < 0x80 && WellFormed(a + [c] + b)
    ensures WellFormed(a) && WellFormed(b)
  {
    FixedExactlyWhenWellFormed(a + [c] + b);
    AsciiSplits(a, c, b);
    SanitizeIsWellFormed(a);
    SanitizeIsWellFormed(b);
    SameParts(Sanitize(a), Sanitize(b), a, c, b);
    FixedExactlyWhenWellFormed(a);
    FixedExactlyWhenWellFormed(b);
  }
}
