/** The names a public path is made of: server aliases, buckets and keys (internal/publicpath/publicpath.go,
    internal/tickets/ticket.go). */
module Names {
  import opened Octets
  import opened Decimals
  import opened Runes
  import opened Strings

  predicate IsAlphaNum(c: Octet) {
    'A' <= c <= 'Z' || 'a' <= c <= 'z' || '0' <= c <= '9'
  }

  /** ValidateAlias. */
  predicate ValidAlias(s: Text) {
    0 < |s| <= 63 && IsAlphaNum(s[0]) && forall i :: 1 <= i < |s| ==> IsAlphaNum(s[i]) || s[i] == '_' || s[i] == '-'
  }

  predicate BucketEdge(c: Octet) {
    'a' <= c <= 'z' || '0' <= c <= '9'
  }

  predicate Adjacent(s: Text, a: Octet, b: Octet) {
    exists i :: 0 <= i < |s| - 1 && s[i] == a && s[i + 1] == b
  }

  /** One field of a dotted IPv4 address: at most 255, without leading zeros. */
  predicate IPv4Field(s: Text) {
    && 0 < |s| <= 3 && AllDigits(s) && (|s| > 1 ==> s[0] != '0')
    && (|s| == 3 ==> (s[0] as int - 48) * 100 + (s[1] as int - 48) * 10 + (s[2] as int - 48) <= 255)
  }

  /** A bucket name that net.ParseIP would accept; without colons only the dotted form can occur. */
  predicate LooksLikeIP(s: Text) {
    var fields := Split(s, '.');
    |fields| == 4 && forall i :: 0 <= i < 4 ==> IPv4Field(fields[i])
  }

  /** ValidateBucket. */
  predicate ValidBucket(s: Text) {
    && 3 <= |s| <= 63 && BucketEdge(s[0]) && BucketEdge(s[|s| - 1])
    && (forall i :: 0 <= i < |s| ==> BucketEdge(s[i]) || s[i] == '.' || s[i] == '-')
    && !Adjacent(s, '.', '.') && !Adjacent(s, '.', '-') && !Adjacent(s, '-', '.')
    && !LooksLikeIP(s)
  }

  /** safeToken. */
  predicate SafeToken(s: Text) {
    0 < |s| <= 256 && forall i :: 0 <= i < |s| ==> IsAlphaNum(s[i]) || s[i] == '-' || s[i] == '_' || s[i] == '.' || s[i] == ':'
  }

  const DOT: Text := "."
  const DOTDOT: Text := ".."

  /** validateKeyLike, non-empty. */
  predicate ValidKey(s: Text) {
    && 0 < |s| <= 1024 && s[0] != '/' && s[|s| - 1] != '/'
    && (forall part :: part in Split(s, '/') ==> part != [] && part != DOT && part != DOTDOT)
    && !HasControl(s)
  }

  lemma KeyHasNoNewline(s: Text)
    requires ValidKey(s)
    ensures '\n' !in s
  {
    forall i | 0 <= i < |s| ensures s[i] != '\n' {
      assert !ControlAt(s, i);
    }
  }

  lemma FieldOfNumber(n: nat)
    requires n <= 255
    ensures IPv4Field(Decimal(n)) && '.' !in Decimal(n)
  {
    if n >= 10 {
      assert Decimal(n / 10)[0] == Decimal(n)[0];
      if n >= 100 {
        assert Decimal(n) == [(48 + n / 100) as char, (48 + n / 10 % 10) as char, (48 + n % 10) as char];
      }
    }
  }

  lemma FieldsAreNoBucket(fields: seq<Text>)
    requires |fields| == 4 && forall i :: 0 <= i < 4 ==> IPv4Field(fields[i]) && '.' !in fields[i]
    ensures !ValidBucket(Join(fields, '.'))
  {
    SplitOfJoin(fields, '.');
  }

  /** No address of four numbers is a bucket. */
  lemma AddressIsNoBucket(address: seq<nat>)
    requires |address| == 4 && forall i :: 0 <= i < 4 ==> address[i] <= 255
    ensures !ValidBucket(Join(seq(4, i requires 0 <= i < 4 => Decimal(address[i])), '.'))
  {
    forall i | 0 <= i < 4 ensures IPv4Field(Decimal(address[i])) && '.' !in Decimal(address[i]) { FieldOfNumber(address[i]); }
    FieldsAreNoBucket(seq(4, i requires 0 <= i < 4 => Decimal(address[i])));
  }
}
