/** Go strings and byte slices are sequences of octets; an octet is written as the character with its code. */
module Octets {
  type Octet = c: char | c as int < 256 witness '\0'
  type Text = seq<Octet>

  datatype Option<+T> = None | Some(value: T)
  datatype Result<+T, +E> = Ok(value: T) | Err(error: E)

  /** Concatenation is associative. */
  lemma Glue(a: Text, b: Text, c: Text)
    ensures a + b + c == a + (b + c)
  {
  }

  /** What is appended does not change the slices before it. */
  lemma SliceExtends(b: Text, tail: Text, i: nat, j: nat)
    requires i <= j <= |b|
    ensures (b + tail)[i..j] == b[i..j] && (b + tail)[j..] == b[j..] + tail
  {
    assert forall k :: i <= k < j ==> (b + tail)[k] == b[k];
    assert (b + tail)[i..j] == b[i..j];
  }

  lemma Parts(b: Text, p: Text, rest: Text)
    requires b == p + rest
    ensures p == b[..|p|] && rest == b[|p|..] && (rest == [] ==> p == b)
  {
  }

  /** Slices of a prefix are slices of the whole. */
  lemma PrefixSlices(b: Text, n: nat, i: nat, j: nat)
    requires i <= j <= n <= |b|
    ensures b[..n][i..j] == b[i..j] && b[..n][j..] == b[j..n] && b[j..][..n - j] == b[j..n]
  {
  }

  /** The first element of the first sequence is the first of all. */
  lemma HeadOut<T>(a: seq<T>, b: seq<T>)
    requires a != []
    ensures a + b == [a[0]] + (a[1..] + b) && (a + b)[1..] == a[1..] + b
  {
  }
}
