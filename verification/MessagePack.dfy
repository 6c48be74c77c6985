/** The MessagePack format families that the ingest frame uses: int, str and map
    (MessagePack specification, "Formats"). */
module MessagePack {
  import opened Octets

  datatype Fault = EndOfData | WrongType | OutOfRange | Duplicate | Unknown | Missing | Trailing | Invalid

  type Parsed<T> = Result<(T, Text), Fault>

  function Byte(n: int): Octet
    requires 0 <= n < 256
  {
    n as char
  }

  function Pow256(k: nat): (p: nat)
    ensures p >= 1
  {
    if k == 0 then 1 else 256 * Pow256(k - 1)
  }

  /** `k` octets, most significant first. */
  function BigEndian(n: nat, k: nat): (b: Text)
    requires n < Pow256(k)
    ensures |b| == k
  {
    if k == 0 then [] else BigEndian(n / 256, k - 1) + [Byte(n % 256)]
  }

  function FromBigEndian(b: Text): (n: nat)
    ensures n < Pow256(|b|)
  {
    if b == [] then 0 else FromBigEndian(b[..|b| - 1]) * 256 + b[|b| - 1] as int
  }

  lemma {:induction false} BigEndianRoundTrip(n: nat, k: nat)
    requires n < Pow256(k)
    ensures FromBigEndian(BigEndian(n, k)) == n
  {
    if k > 0 {
      BigEndianRoundTrip(n / 256, k - 1);
      var b := BigEndian(n, k);
      assert b[..|b| - 1] == BigEndian(n / 256, k - 1);
    }
  }

  /** Two's complement of width `k` octets. */
  function Signed(n: nat, k: nat): int {
    if 2 * n >= Pow256(k) then n - Pow256(k) else n
  }

  // ----- encoding -----

  function EncodeMapLen(n: nat): Text
    requires n < 0x1_0000_0000
  {
    if n < 16 then [Byte(0x80 + n)]
    else if n < 0x1_0000 then [Byte(0xDE)] + BigEndian(n, 2)
    else [Byte(0xDF)] + BigEndian(n, 4)
  }

  function EncodeStr(s: Text): Text
    requires |s| < 0x1_0000_0000
  {
    (if |s| < 32 then [Byte(0xA0 + |s|)]
     else if |s| < 0x100 then [Byte(0xD9)] + BigEndian(|s|, 1)
     else if |s| < 0x1_0000 then [Byte(0xDA)] + BigEndian(|s|, 2)
     else [Byte(0xDB)] + BigEndian(|s|, 4)) + s
  }

  predicate IsInt64(n: int) {
    -0x8000_0000_0000_0000 <= n < 0x8000_0000_0000_0000
  }

  function EncodeInt(n: int): Text
    requires IsInt64(n)
  {
    if n >= 0 then
      if n < 0x80 then [Byte(n)]
      else if n < 0x100 then [Byte(0xCC)] + BigEndian(n, 1)
      else if n < 0x1_0000 then [Byte(0xCD)] + BigEndian(n, 2)
      else if n < 0x1_0000_0000 then [Byte(0xCE)] + BigEndian(n, 4)
      else [Byte(0xCF)] + BigEndian(n, 8)
    else
      if n >= -32 then [Byte(n + 0x100)]
      else if n >= -0x80 then [Byte(0xD0)] + BigEndian(n + 0x100, 1)
      else if n >= -0x8000 then [Byte(0xD1)] + BigEndian(n + 0x1_0000, 2)
      else if n >= -0x8000_0000 then [Byte(0xD2)] + BigEndian(n + 0x1_0000_0000, 4)
      else [Byte(0xD3)] + BigEndian(n + 0x1_0000_0000_0000_0000, 8)
  }

  // ----- decoding: the value and what is left -----

  /** A code octet, then `k` octets of unsigned number. */
  function Number(b: Text, k: nat): Parsed<nat>
    requires b != []
  {
    if |b| < 1 + k then Err(EndOfData) else Ok((FromBigEndian(b[1..1 + k]), b[1 + k..]))
  }

  /** How many fields a map header announces.  For nil the library answers -1, and a loop up to that makes as many
      rounds as one up to 0. */
  function MapCount(b: Text): Parsed<nat> {
    if b == [] then Err(EndOfData)
    else
      var c := b[0] as int;
      if 0x80 <= c < 0x90 then Ok((c - 0x80, b[1..]))
      else if c == 0xC0 then Ok((0, b[1..]))
      else if c == 0xDE then Number(b, 2)
      else if c == 0xDF then Number(b, 4)
      else Err(WrongType)
  }

  /** The octets of an extension header: code, length and type.  It is zero for every other code. */
  function ExtHeader(c: int): nat {
    if 0xD4 <= c <= 0xD8 then 2 else if c == 0xC7 then 3 else if c == 0xC8 then 4 else if c == 0xC9 then 6 else 0
  }

  /** DecodeMapLen of the library, which skips one extension header. */
  function DecodeMapLen(b: Text): Parsed<nat> {
    if b == [] then Err(EndOfData)
    else
      var k := ExtHeader(b[0] as int);
      if |b| < k then Err(EndOfData) else MapCount(b[k..])
  }

  function StrLen(b: Text): Parsed<nat> {
    if b == [] then Err(EndOfData)
    else
      var c := b[0] as int;
      if 0xA0 <= c < 0xC0 then Ok((c - 0xA0, b[1..]))
      else if c == 0xD9 then Number(b, 1)
      else if c == 0xDA then Number(b, 2)
      else if c == 0xDB then Number(b, 4)
      else Err(WrongType)
  }

  function DecodeStr(b: Text): Parsed<Text> {
    match StrLen(b)
    case Err(e) => Err(e)
    case Ok((n, rest)) => if |rest| < n then Err(EndOfData) else Ok((rest[..n], rest[n..]))
  }

  function SignedNumber(b: Text, k: nat): Parsed<int>
    requires b != []
  {
    match Number(b, k)
    case Err(e) => Err(e)
    case Ok((n, rest)) => Ok((Signed(n, k), rest))
  }

  function UnsignedNumber(b: Text, k: nat): Parsed<int>
    requires b != []
  {
    match Number(b, k)
    case Err(e) => Err(e)
    case Ok((n, rest)) => if n >= 0x8000_0000_0000_0000 then Err(OutOfRange) else Ok((n, rest))
  }

  /** decodeInt64: any int format whose value fits. */
  function DecodeInt(b: Text): Parsed<int> {
    if b == [] then Err(EndOfData)
    else
      var c := b[0] as int;
      if c <= 0x7F then Ok((c, b[1..]))
      else if c >= 0xE0 then Ok((c - 0x100, b[1..]))
      else if c == 0xD0 then SignedNumber(b, 1)
      else if c == 0xD1 then SignedNumber(b, 2)
      else if c == 0xD2 then SignedNumber(b, 4)
      else if c == 0xD3 then SignedNumber(b, 8)
      else if c == 0xCC then UnsignedNumber(b, 1)
      else if c == 0xCD then UnsignedNumber(b, 2)
      else if c == 0xCE then UnsignedNumber(b, 4)
      else if c == 0xCF then UnsignedNumber(b, 8)
      else Err(WrongType)
  }

  // ----- what is encoded is decoded, and the rest is left alone -----

  lemma Powers()
    ensures Pow256(1) == 0x100 && Pow256(2) == 0x1_0000 && Pow256(4) == 0x1_0000_0000
    ensures Pow256(8) == 0x1_0000_0000_0000_0000
  {
    assert Pow256(3) == 0x100_0000 && Pow256(5) == 0x100_0000_0000 && Pow256(6) == 0x1_0000_0000_0000;
  }

  lemma NumberRoundTrip(code: Octet, n: nat, k: nat, tail: Text)
    requires n < Pow256(k)
    ensures Number([code] + BigEndian(n, k) + tail, k) == Ok((n, tail))
  {
    var b := [code] + BigEndian(n, k) + tail;
    BigEndianRoundTrip(n, k);
    assert b[1..1 + k] == BigEndian(n, k) && b[1 + k..] == tail;
  }

  lemma MapLenRoundTrip(n: nat, tail: Text)
    requires n < 0x1_0000_0000
    ensures DecodeMapLen(EncodeMapLen(n) + tail) == Ok((n, tail))
  {
    Powers();
    var b := EncodeMapLen(n) + tail;
    assert b[0..] == b;
    if n < 16 { assert ([Byte(0x80 + n)] + tail)[1..] == tail; }
    else if n < 0x1_0000 { NumberRoundTrip(Byte(0xDE), n, 2, tail); }
    else { NumberRoundTrip(Byte(0xDF), n, 4, tail); }
  }

  lemma StrRoundTrip(s: Text, tail: Text)
    requires |s| < 0x1_0000_0000
    ensures DecodeStr(EncodeStr(s) + tail) == Ok((s, tail))
  {
    Powers();
    var b, n := EncodeStr(s) + tail, |s|;
    assert StrLen(b) == Ok((n, s + tail)) by {
      if n < 32 { assert b[1..] == s + tail; }
      else if n < 0x100 { NumberRoundTrip(Byte(0xD9), n, 1, s + tail); assert b == [Byte(0xD9)] + BigEndian(n, 1) + (s + tail); }
      else if n < 0x1_0000 { NumberRoundTrip(Byte(0xDA), n, 2, s + tail); assert b == [Byte(0xDA)] + BigEndian(n, 2) + (s + tail); }
      else { NumberRoundTrip(Byte(0xDB), n, 4, s + tail); assert b == [Byte(0xDB)] + BigEndian(n, 4) + (s + tail); }
    }
    assert (s + tail)[..n] == s && (s + tail)[n..] == tail;
  }

  lemma NaturalRoundTrip(n: nat, tail: Text)
    requires n < 0x8000_0000_0000_0000
    ensures DecodeInt(EncodeInt(n) + tail) == Ok((n, tail))
  {
    Powers();
    if n < 0x80 { assert ([Byte(n)] + tail)[1..] == tail; }
    else if n < 0x100 { NumberRoundTrip(Byte(0xCC), n, 1, tail); }
    else if n < 0x1_0000 { NumberRoundTrip(Byte(0xCD), n, 2, tail); }
    else if n < 0x1_0000_0000 { NumberRoundTrip(Byte(0xCE), n, 4, tail); }
    else { NumberRoundTrip(Byte(0xCF), n, 8, tail); }
  }

  lemma SignedRoundTrip(code: Octet, n: int, k: nat, tail: Text)
    requires n < 0 <= 2 * n + Pow256(k)
    ensures SignedNumber([code] + BigEndian(n + Pow256(k), k) + tail, k) == Ok((n, tail))
    ensures ([code] + BigEndian(n + Pow256(k), k) + tail)[0] == code
  {
    SignedOf(n, k);
    NumberRoundTrip(code, n + Pow256(k), k, tail);
  }

  lemma SignedOf(n: int, k: nat)
    requires n < 0 <= 2 * n + Pow256(k)
    ensures n + Pow256(k) >= 0 && Signed(n + Pow256(k), k) == n
  {
  }

  /** How many octets a negative number takes that does not fit the code itself, and the code for that. */
  function SignedWidth(n: int): nat {
    if n >= -0x80 then 1 else if n >= -0x8000 then 2 else if n >= -0x8000_0000 then 4 else 8
  }

  function SignedCode(k: nat): Octet {
    if k == 1 then Byte(0xD0) else if k == 2 then Byte(0xD1) else if k == 4 then Byte(0xD2) else Byte(0xD3)
  }

  lemma SignedForm(n: int)
    requires -0x8000_0000_0000_0000 <= n < -32
    ensures var k := SignedWidth(n);
            0 <= 2 * n + Pow256(k) && EncodeInt(n) == [SignedCode(k)] + BigEndian(n + Pow256(k), k)
  {
    Powers();
  }

  lemma DecodesSigned(b: Text, k: nat)
    requires b != [] && k in {1, 2, 4, 8} && b[0] == SignedCode(k)
    ensures DecodeInt(b) == SignedNumber(b, k)
  {
  }

  lemma NegativeRoundTrip(n: int, tail: Text)
    requires -0x8000_0000_0000_0000 <= n < 0
    ensures DecodeInt(EncodeInt(n) + tail) == Ok((n, tail))
  {
    if n >= -32 {
      assert ([Byte(n + 0x100)] + tail)[1..] == tail;
    } else {
      var k := SignedWidth(n);
      SignedForm(n);
      SignedRoundTrip(SignedCode(k), n, k, tail);
      DecodesSigned(EncodeInt(n) + tail, k);
    }
  }

  lemma IntRoundTrip(n: int, tail: Text)
    requires IsInt64(n)
    ensures DecodeInt(EncodeInt(n) + tail) == Ok((n, tail))
  {
    if n >= 0 { NaturalRoundTrip(n, tail); } else { NegativeRoundTrip(n, tail); }
  }

  // ----- a decoder looks only at what it consumes -----

  lemma NumberExtends(b: Text, k: nat, tail: Text)
    requires b != [] && Number(b, k).Ok?
    ensures Number(b + tail, k) == Ok((Number(b, k).value.0, Number(b, k).value.1 + tail))
  {
    SliceExtends(b, tail, 1, 1 + k);
    assert |b + tail| >= 1 + k;
  }

  lemma StrExtends(b: Text, tail: Text)
    requires DecodeStr(b).Ok?
    ensures DecodeStr(b + tail) == Ok((DecodeStr(b).value.0, DecodeStr(b).value.1 + tail))
  {
    var c := b[0] as int;
    var (n, rest) := StrLen(b).value;
    assert StrLen(b + tail) == Ok((n, rest + tail)) by {
      if c < 0xC0 { assert (b + tail)[1..] == b[1..] + tail; }
      else { NumberExtends(b, if c == 0xD9 then 1 else if c == 0xDA then 2 else 4, tail); }
    }
    assert (rest + tail)[..n] == rest[..n] && (rest + tail)[n..] == rest[n..] + tail;
  }

  lemma IntExtends(b: Text, tail: Text)
    requires DecodeInt(b).Ok?
    ensures DecodeInt(b + tail) == Ok((DecodeInt(b).value.0, DecodeInt(b).value.1 + tail))
  {
    var c := b[0] as int;
    if c <= 0x7F || c >= 0xE0 { assert (b + tail)[1..] == b[1..] + tail; }
    else {
      NumberExtends(b, if c == 0xD0 || c == 0xCC then 1 else if c == 0xD1 || c == 0xCD then 2
                       else if c == 0xD2 || c == 0xCE then 4 else 8, tail);
    }
  }

  lemma MapCountExtends(b: Text, tail: Text)
    requires MapCount(b).Ok?
    ensures MapCount(b + tail) == Ok((MapCount(b).value.0, MapCount(b).value.1 + tail))
  {
    var c := b[0] as int;
    if c == 0xDE || c == 0xDF { NumberExtends(b, if c == 0xDE then 2 else 4, tail); }
    else { assert (b + tail)[1..] == b[1..] + tail; }
  }

  lemma MapLenExtends(b: Text, tail: Text)
    requires DecodeMapLen(b).Ok?
    ensures DecodeMapLen(b + tail) == Ok((DecodeMapLen(b).value.0, DecodeMapLen(b).value.1 + tail))
  {
    var k := ExtHeader(b[0] as int);
    assert (b + tail)[0] == b[0] && (b + tail)[k..] == b[k..] + tail;
    MapCountExtends(b[k..], tail);
  }

  /** What a decoder leaves is the end of what it was given. */
  lemma LeavesSuffix(b: Text)
    ensures DecodeStr(b).Ok? ==> var r := DecodeStr(b).value.1; |r| < |b| && r == b[|b| - |r|..]
    ensures DecodeInt(b).Ok? ==> var r := DecodeInt(b).value.1; |r| < |b| && r == b[|b| - |r|..]
    ensures MapCount(b).Ok? ==> var r := MapCount(b).value.1; |r| < |b| && r == b[|b| - |r|..]
  {
  }

  lemma MapLenLeavesSuffix(b: Text)
    ensures DecodeMapLen(b).Ok? ==> var r := DecodeMapLen(b).value.1; |r| < |b| && r == b[|b| - |r|..]
  {
    if DecodeMapLen(b).Ok? { LeavesSuffix(b[ExtHeader(b[0] as int)..]); }
  }

  /** A decoder that leaves `r` of `b` consumes exactly the rest: on that part alone it leaves nothing. */
  lemma NumberShrinks(b: Text, k: nat)
    requires b != [] && Number(b, k).Ok?
    ensures var r := Number(b, k).value.1;
            |r| < |b| && Number(b[..|b| - |r|], k) == Ok((Number(b, k).value.0, []))
  {
    var used := b[..1 + k];
    assert |b| - |Number(b, k).value.1| == 1 + k;
    assert used[1..1 + k] == b[1..1 + k] && used[1 + k..] == [];
  }

  lemma StrShrinks(b: Text)
    requires DecodeStr(b).Ok?
    ensures var (v, r) := DecodeStr(b).value;
            |r| < |b| && r == b[|b| - |r|..] && DecodeStr(b[..|b| - |r|]) == Ok((v, []))
  {
    LeavesSuffix(b);
    var (v, r) := DecodeStr(b).value;
    var (n, rest) := StrLen(b).value;
    var used := b[..|b| - |r|];
    assert b[0] == used[0] && v == rest[..n];
    var c := b[0] as int;
    if c < 0xC0 {
      PrefixSlices(b, |used|, 1, 1);
      assert used[1..] == v;
    } else {
      var k := if c == 0xD9 then 1 else if c == 0xDA then 2 else 4;
      PrefixSlices(b, |used|, 1, 1 + k);
    }
    assert StrLen(used) == Ok((n, v));
    assert v[..n] == v && v[n..] == [];
  }

  lemma IntShrinks(b: Text)
    requires DecodeInt(b).Ok?
    ensures var (v, r) := DecodeInt(b).value;
            |r| < |b| && r == b[|b| - |r|..] && DecodeInt(b[..|b| - |r|]) == Ok((v, []))
  {
    LeavesSuffix(b);
    var c := b[0] as int;
    if c <= 0x7F || c >= 0xE0 {
      assert b[..1][1..] == [];
    } else {
      NumberShrinks(b, if c == 0xD0 || c == 0xCC then 1 else if c == 0xD1 || c == 0xCD then 2
                       else if c == 0xD2 || c == 0xCE then 4 else 8);
    }
  }

  lemma MapCountShrinks(b: Text)
    requires MapCount(b).Ok?
    ensures var (v, r) := MapCount(b).value;
            |r| < |b| && r == b[|b| - |r|..] && MapCount(b[..|b| - |r|]) == Ok((v, []))
  {
    LeavesSuffix(b);
    var c := b[0] as int;
    if c == 0xDE || c == 0xDF { NumberShrinks(b, if c == 0xDE then 2 else 4); }
    else { assert b[..1][1..] == []; }
  }

  lemma MapLenShrinks(b: Text)
    requires DecodeMapLen(b).Ok?
    ensures var (v, r) := DecodeMapLen(b).value;
            |r| < |b| && r == b[|b| - |r|..] && DecodeMapLen(b[..|b| - |r|]) == Ok((v, []))
  {
    var k := ExtHeader(b[0] as int);
    MapLenLeavesSuffix(b);
    MapCountShrinks(b[k..]);
    var used := b[..|b| - |DecodeMapLen(b).value.1|];
    assert used[0] == b[0] && used[k..] == b[k..][..|b[k..]| - |DecodeMapLen(b).value.1|];
  }
}
