/** sigv4URIEncode (internal/s3api/sigv4.go): escapes are kept, everything else that is not unreserved is escaped
    (sections 2.1, 2.3 and 6.2.2.1 of RFC 3986). */
module UriEncoding {
  import opened Octets

  predicate IsUnreserved(c: Octet) {
    'A' <= c <= 'Z' || 'a' <= c <= 'z' || '0' <= c <= '9' || c == '-' || c == '.' || c == '_' || c == '~'
  }

  predicate IsHex(c: Octet) {
    '0' <= c <= '9' || 'a' <= c <= 'f' || 'A' <= c <= 'F'
  }

  predicate IsUpperHex(c: Octet) {
    '0' <= c <= '9' || 'A' <= c <= 'F'
  }

  function UpperHex(c: Octet): (r: Octet)
    ensures IsHex(c) ==> IsUpperHex(r) && HexValue(r) == HexValue(c)
  {
    if 'a' <= c <= 'f' then (c as int - 'a' as int + 'A' as int) as char else c
  }

  function HexValue(c: Octet): int {
    if '0' <= c <= '9' then c as int - '0' as int
    else if 'a' <= c <= 'f' then c as int - 'a' as int + 10
    else if 'A' <= c <= 'F' then c as int - 'A' as int + 10
    else 0
  }

  function HexDigit(n: int): (c: Octet)
    requires 0 <= n < 16
    ensures IsUpperHex(c) && HexValue(c) == n
  {
    if n < 10 then ('0' as int + n) as char else ('A' as int + n - 10) as char
  }

  predicate Plain(c: Octet, allowSlash: bool) {
    IsUnreserved(c) || (c == '/' && allowSlash)
  }

  /** `s` begins with a percent sign and two hexadecimal digits. */
  predicate StartsEscaped(s: Text) {
    |s| >= 3 && s[0] == '%' && IsHex(s[1]) && IsHex(s[2])
  }

  function Escape(c: Octet): Text {
    ['%', HexDigit(c as int / 16), HexDigit(c as int % 16)]
  }

  function Encode(s: Text, allowSlash: bool): Text {
    if s == [] then []
    else if StartsEscaped(s) then ['%', UpperHex(s[1]), UpperHex(s[2])] + Encode(s[3..], allowSlash)
    else if Plain(s[0], allowSlash) then [s[0]] + Encode(s[1..], allowSlash)
    else Escape(s[0]) + Encode(s[1..], allowSlash)
  }

  /** The normal form: unreserved octets, slashes where allowed, and escapes in upper case. */
  predicate Normal(s: Text, allowSlash: bool) {
    s == []
    || (Plain(s[0], allowSlash) && Normal(s[1..], allowSlash))
    || (StartsEscaped(s) && IsUpperHex(s[1]) && IsUpperHex(s[2]) && Normal(s[3..], allowSlash))
  }

  /** Percent-decoding that passes over a percent sign without two digits. */
  function Decode(s: Text): Text {
    if s == [] then []
    else if StartsEscaped(s) then [(HexValue(s[1]) * 16 + HexValue(s[2])) as char] + Decode(s[3..])
    else [s[0]] + Decode(s[1..])
  }

  lemma AfterEscape(e: Text, t: Text)
    requires |e| == 3
    ensures (e + t)[0] == e[0] && (e + t)[1] == e[1] && (e + t)[2] == e[2] && (e + t)[3..] == t
  {
  }

  lemma {:induction false} EncodeIsNormal(s: Text, allowSlash: bool)
    ensures Normal(Encode(s, allowSlash), allowSlash)
  {
    if s != [] {
      if StartsEscaped(s) {
        EncodeIsNormal(s[3..], allowSlash);
        AfterEscape(['%', UpperHex(s[1]), UpperHex(s[2])], Encode(s[3..], allowSlash));
      } else {
        var t := Encode(s[1..], allowSlash);
        EncodeIsNormal(s[1..], allowSlash);
        if Plain(s[0], allowSlash) { assert ([s[0]] + t)[1..] == t; } else { AfterEscape(Escape(s[0]), t); }
      }
    }
  }

  /** Exactly the texts in normal form are left as they are. */
  lemma {:induction false} FixedExactlyWhenNormal(s: Text, allowSlash: bool)
    ensures Encode(s, allowSlash) == s <==> Normal(s, allowSlash)
  {
    if Encode(s, allowSlash) == s {
      EncodeIsNormal(s, allowSlash);
    } else if Normal(s, allowSlash) {
      NormalIsFixed(s, allowSlash);
    }
  }

  lemma {:induction false} NormalIsFixed(s: Text, allowSlash: bool)
    requires Normal(s, allowSlash)
    ensures Encode(s, allowSlash) == s
  {
    if s != [] {
      if Plain(s[0], allowSlash) {
        NormalIsFixed(s[1..], allowSlash);
        assert s == [s[0]] + s[1..];
      } else {
        NormalIsFixed(s[3..], allowSlash);
        assert s == [s[0], s[1], s[2]] + s[3..];
      }
    }
  }

  lemma {:induction false} EncodeIdempotent(s: Text, allowSlash: bool)
    ensures Encode(Encode(s, allowSlash), allowSlash) == Encode(s, allowSlash)
  {
    EncodeIsNormal(s, allowSlash);
    NormalIsFixed(Encode(s, allowSlash), allowSlash);
  }

  /** Encoding does not change what the text decodes to. */
  lemma {:induction false} EncodePreservesMeaning(s: Text, allowSlash: bool)
    ensures Decode(Encode(s, allowSlash)) == Decode(s)
  {
    if s != [] {
      if StartsEscaped(s) {
        EncodePreservesMeaning(s[3..], allowSlash);
        AfterEscape(['%', UpperHex(s[1]), UpperHex(s[2])], Encode(s[3..], allowSlash));
      } else {
        var t := Encode(s[1..], allowSlash);
        EncodePreservesMeaning(s[1..], allowSlash);
        if Plain(s[0], allowSlash) { AfterPlain(s[0], t, allowSlash); } else { DecodeEscape(s[0], t); }
      }
    }
  }

  lemma AfterPlain(c: Octet, t: Text, allowSlash: bool)
    requires Plain(c, allowSlash)
    ensures Decode([c] + t) == [c] + Decode(t)
  {
    assert ([c] + t)[0] == c && ([c] + t)[1..] == t;
  }

  lemma DecodeEscape(c: Octet, t: Text)
    ensures Decode(Escape(c) + t) == [c] + Decode(t)
  {
    AfterEscape(Escape(c), t);
  }

  /** A normal form contains nothing else. */
  lemma {:induction false} NormalOctets(s: Text, allowSlash: bool)
    requires Normal(s, allowSlash)
    ensures forall c :: c in s ==> Plain(c, allowSlash) || c == '%'
  {
    if s != [] {
      if Plain(s[0], allowSlash) {
        NormalOctets(s[1..], allowSlash);
        assert s == [s[0]] + s[1..];
      } else {
        NormalOctets(s[3..], allowSlash);
        assert s == [s[0], s[1], s[2]] + s[3..];
      }
    }
  }

  /** A slash is escaped unless it is allowed, and so is everything but letters, digits and four marks. */
  lemma OctetsOfEncoded(s: Text, allowSlash: bool)
    ensures forall c :: c in Encode(s, allowSlash) ==>
              || 'A' <= c <= 'Z' || 'a' <= c <= 'z' || '0' <= c <= '9' || c == '-' || c == '.' || c == '_' || c == '~' || c == '%'
              || (c == '/' && allowSlash)
    ensures '/' !in Encode(s, false)
  {
    EncodeIsNormal(s, allowSlash);
    NormalOctets(Encode(s, allowSlash), allowSlash);
    EncodeIsNormal(s, false);
    NormalOctets(Encode(s, false), false);
  }

  /** What needs no escape stays. */
  lemma UnreservedStays(s: Text, allowSlash: bool)
    requires forall c :: c in s ==>
               || 'A' <= c <= 'Z' || 'a' <= c <= 'z' || '0' <= c <= '9' || c == '-' || c == '.' || c == '_' || c == '~'
               || (c == '/' && allowSlash)
    ensures Encode(s, allowSlash) == s
  {
    PlainIsNormal(s, allowSlash);
    NormalIsFixed(s, allowSlash);
  }

  lemma {:induction false} PlainIsNormal(s: Text, allowSlash: bool)
    requires forall c :: c in s ==> Plain(c, allowSlash)
    ensures Normal(s, allowSlash)
  {
    if s != [] {
      assert s[0] in s;
      PlainIsNormal(s[1..], allowSlash);
    }
  }

  /** sigv4URIEncode. */
  method UriEncode(value: Text, allowSlash: bool) returns (b: Text)
    ensures b == Encode(value, allowSlash)
  {
    b := [];
    var i := 0;
    while i < |value|
      invariant 0 <= i <= |value|
      invariant b + Encode(value[i..], allowSlash) == Encode(value, allowSlash)
    {
      var c := value[i];
      ghost var before, rest := b, value[i..];
      if c == '%' && i + 2 < |value| && IsHex(value[i + 1]) && IsHex(value[i + 2]) {
        b := b + ['%', UpperHex(value[i + 1]), UpperHex(value[i + 2])];
        assert rest[3..] == value[i + 3..] && rest[1] == value[i + 1] && rest[2] == value[i + 2];
        Glue(before, ['%', UpperHex(value[i + 1]), UpperHex(value[i + 2])], Encode(value[i + 3..], allowSlash));
        i := i + 2;
      } else if Plain(c, allowSlash) {
        b := b + [c];
        assert rest[1..] == value[i + 1..];
        Glue(before, [c], Encode(value[i + 1..], allowSlash));
      } else {
        b := b + ['%', HexDigit(c as int / 16), HexDigit(c as int % 16)];
        assert rest[1..] == value[i + 1..];
        Glue(before, Escape(c), Encode(value[i + 1..], allowSlash));
      }
      i := i + 1;
    }
  }
}
