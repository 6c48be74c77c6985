/** strings.Split, strings.Join and strings.Cut with a one-octet separator, and the order of Go strings. */
module Strings {
  import opened Octets

  function Split(s: Text, sep: Octet): (parts: seq<Text>)
    ensures parts != []
  {
    if s == [] then [[]]
    else
      var rest := Split(s[1..], sep);
      if s[0] == sep then [[]] + rest else [[s[0]] + rest[0]] + rest[1..]
  }

  function Join(parts: seq<Text>, sep: Octet): Text {
    if parts == [] then []
    else if |parts| == 1 then parts[0]
    else parts[0] + [sep] + Join(parts[1..], sep)
  }

  /** No part contains the separator. */
  predicate Clear(parts: seq<Text>, sep: Octet) {
    forall i :: 0 <= i < |parts| ==> sep !in parts[i]
  }

  lemma {:induction false} SplitIsClear(s: Text, sep: Octet)
    ensures Clear(Split(s, sep), sep)
  {
    if s != [] {
      SplitIsClear(s[1..], sep);
      var rest := Split(s[1..], sep);
      var parts := Split(s, sep);
      forall i | 0 <= i < |parts| ensures sep !in parts[i] {
        if i > 0 { assert s[0] == sep ==> parts[i] == rest[i - 1]; assert s[0] != sep ==> parts[i] == rest[i]; }
      }
    }
  }

  lemma {:induction false} JoinOfSplit(s: Text, sep: Octet)
    ensures Join(Split(s, sep), sep) == s
  {
    if s != [] {
      JoinOfSplit(s[1..], sep);
      var rest := Split(s[1..], sep);
      if s[0] == sep {
        assert ([[]] + rest)[1..] == rest;
        assert s == [] + [sep] + s[1..];
      } else {
        var parts := [[s[0]] + rest[0]] + rest[1..];
        assert parts[1..] == rest[1..];
        if |rest| > 1 {
          Glue([s[0]], rest[0], [sep] + Join(rest[1..], sep));
          Glue([s[0]] + rest[0], [sep], Join(rest[1..], sep));
          Glue(rest[0], [sep], Join(rest[1..], sep));
        }
        assert s == [s[0]] + s[1..];
      }
    }
  }

  /** A text without the separator is one part. */
  lemma {:induction false} SplitOne(s: Text, sep: Octet)
    requires sep !in s
    ensures Split(s, sep) == [s]
  {
    if s != [] {
      SplitOne(s[1..], sep);
      assert s == [s[0]] + s[1..];
    }
  }

  lemma FirstOfBoth(c: Octet, a: seq<Text>, b: seq<Text>)
    requires a != []
    ensures var none: seq<Text> := [[]]; none + (a + b) == none + a + b
    ensures [[c] + (a + b)[0]] + (a + b)[1..] == [[c] + a[0]] + a[1..] + b
  {
    assert (a + b)[1..] == a[1..] + b;
  }

  /** Splitting after a separator. */
  lemma {:induction false} SplitAppend(s: Text, part: Text, sep: Octet)
    ensures Split(s + [sep] + part, sep) == Split(s, sep) + Split(part, sep)
  {
    var whole := s + [sep] + part;
    if s == [] {
      assert whole[1..] == part && whole[0] == sep;
    } else {
      SplitAppend(s[1..], part, sep);
      assert whole[1..] == s[1..] + [sep] + part && whole[0] == s[0];
      FirstOfBoth(s[0], Split(s[1..], sep), Split(part, sep));
    }
  }

  lemma {:induction false} SplitOfJoin(parts: seq<Text>, sep: Octet)
    requires parts != [] && Clear(parts, sep)
    ensures Split(Join(parts, sep), sep) == parts
  {
    SplitOne(parts[0], sep);
    if |parts| > 1 {
      SplitOfJoin(parts[1..], sep);
      SplitAppend(parts[0], Join(parts[1..], sep), sep);
      assert parts == [parts[0]] + parts[1..];
    }
  }

  /** strings.Cut; without the separator the second half is empty. */
  function Cut(s: Text, sep: Octet): (Text, Text) {
    if s == [] then ([], [])
    else if s[0] == sep then ([], s[1..])
    else var (a, b) := Cut(s[1..], sep); ([s[0]] + a, b)
  }

  lemma {:induction false} CutOfGlued(a: Text, b: Text, sep: Octet)
    requires sep !in a
    ensures Cut(a + [sep] + b, sep) == (a, b)
  {
    var s := a + [sep] + b;
    if a == [] {
      assert s[0] == sep && s[1..] == b;
    } else {
      CutOfGlued(a[1..], b, sep);
      assert s[1..] == a[1..] + [sep] + b && s[0] == a[0];
      assert a == [a[0]] + a[1..];
    }
  }

  // ----- order -----

  predicate LessEq(a: Text, b: Text) {
    a == [] || (b != [] && (a[0] < b[0] || (a[0] == b[0] && LessEq(a[1..], b[1..]))))
  }

  lemma {:induction false} Total(a: Text, b: Text)
    ensures LessEq(a, b) || LessEq(b, a)
    ensures LessEq(a, b) && LessEq(b, a) ==> a == b
  {
    if a != [] && b != [] && a[0] == b[0] {
      Total(a[1..], b[1..]);
      assert a == [a[0]] + a[1..] && b == [b[0]] + b[1..];
    }
  }

  lemma {:induction false} Transitive(a: Text, b: Text, c: Text)
    requires LessEq(a, b) && LessEq(b, c)
    ensures LessEq(a, c)
  {
    if a != [] && a[0] == b[0] == c[0] {
      Transitive(a[1..], b[1..], c[1..]);
    }
  }

  /** The order of octets: at the first difference the smaller octet, or the end, comes first. */
  ghost predicate InOrder(a: Text, b: Text) {
    exists k :: 0 <= k <= |a| && k <= |b| && a[..k] == b[..k] && (k == |a| || (k < |b| && a[k] < b[k]))
  }

  lemma {:induction false} LessEqIs(a: Text, b: Text)
    ensures LessEq(a, b) <==> InOrder(a, b)
  {
    if LessEq(a, b) { FirstDifference(a, b); }
    if k :| 0 <= k <= |a| && k <= |b| && a[..k] == b[..k] && (k == |a| || (k < |b| && a[k] < b[k])) { Differs(a, b, k); }
  }

  lemma {:induction false} FirstDifference(a: Text, b: Text)
    requires LessEq(a, b)
    ensures InOrder(a, b)
  {
    if a == [] || a[0] < b[0] {
      assert a[..0] == b[..0];
    } else {
      FirstDifference(a[1..], b[1..]);
      var k :| 0 <= k <= |a[1..]| && k <= |b[1..]| && a[1..][..k] == b[1..][..k] && (k == |a[1..]| || (k < |b[1..]| && a[1..][k] < b[1..][k]));
      assert a[..k + 1] == [a[0]] + a[1..][..k] && b[..k + 1] == [b[0]] + b[1..][..k];
    }
  }

  lemma {:induction false} Differs(a: Text, b: Text, k: nat)
    requires k <= |a| && k <= |b| && a[..k] == b[..k] && (k == |a| || (k < |b| && a[k] < b[k]))
    ensures LessEq(a, b)
  {
    if k > 0 {
      assert a[0] == a[..k][0] == b[..k][0] == b[0];
      assert a[1..][..k - 1] == a[..k][1..] && b[1..][..k - 1] == b[..k][1..];
      Differs(a[1..], b[1..], k - 1);
    }
  }
}
