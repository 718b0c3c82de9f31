/**
 * Go strings and byte slices. A Go `string` is an immutable sequence of
 * bytes and `[]byte(s)` / `string(b)` copy those bytes unchanged, so both
 * are modelled by the same `Bytes` type. Keys of the key-value engine are
 * ordered the way `bytes.Compare` orders them: byte-wise lexicographic,
 * with a proper prefix before its extensions.
 */
module ByteStrings {

  type byte = x: int | 0 <= x < 256

  type Bytes = seq<byte>

  /** The bytes of an ASCII string literal. */
  function Ascii(s: string): (b: Bytes)
    requires forall i | 0 <= i < |s| :: s[i] as int < 128
    ensures |b| == |s|
    ensures forall i | 0 <= i < |s| :: b[i] == s[i] as int
  {
    seq(|s|, i requires 0 <= i < |s| => s[i] as int)
  }

  /** Strict byte-lexicographic order (`bytes.Compare(a, b) < 0`). */
  predicate Less(a: Bytes, b: Bytes)
  {
    if |a| == 0 then |b| > 0
    else |b| > 0 && (a[0] < b[0] || (a[0] == b[0] && Less(a[1..], b[1..])))
  }

  lemma {:induction false} LessIrreflexive(a: Bytes)
    ensures !Less(a, a)
  {
    if |a| > 0 {
      LessIrreflexive(a[1..]);
    }
  }

  lemma {:induction false} LessTransitive(a: Bytes, b: Bytes, c: Bytes)
    requires Less(a, b) && Less(b, c)
    ensures Less(a, c)
  {
    if |a| > 0 && a[0] == b[0] && b[0] == c[0] {
      LessTransitive(a[1..], b[1..], c[1..]);
    }
  }

  /** Any two distinct byte strings are ordered one way or the other. */
  lemma {:induction false} LessTotal(a: Bytes, b: Bytes)
    ensures a == b || Less(a, b) || Less(b, a)
  {
    if |a| > 0 && |b| > 0 && a[0] == b[0] {
      LessTotal(a[1..], b[1..]);
      if a[1..] == b[1..] {
        assert a == [a[0]] + a[1..] && b == [b[0]] + b[1..];
      }
    }
  }

  lemma {:induction false} LessAsymmetric(a: Bytes, b: Bytes)
    requires Less(a, b)
    ensures !Less(b, a)
  {
    if |a| > 0 && a[0] == b[0] {
      LessAsymmetric(a[1..], b[1..]);
    }
  }
}
