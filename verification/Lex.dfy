/** Byte strings and their lexicographic order. */
module Lex {
  type byte = b: int | 0 <= b < 256
  type bytes = seq<byte>

  /** Position of a byte string in the real interval [0, 1): a witness that the
      lexicographic order is a total order. */
  ghost function Rank(s: bytes): (r: real)
    ensures 0.0 <= r < 1.0
    ensures r == 0.0 <==> s == []
  {
    if s == [] then 0.0 else (s[0] as real + 1.0 + Rank(s[1..])) / 257.0
  }

  lemma {:induction false} RankInjective(a: bytes, b: bytes)
    ensures Rank(a) == Rank(b) ==> a == b
  {
    if a != [] && b != [] && Rank(a) == Rank(b) {
      assert a[0] as real + 1.0 + Rank(a[1..]) == b[0] as real + 1.0 + Rank(b[1..]);
      assert a[0] == b[0];
      RankInjective(a[1..], b[1..]);
      assert a == [a[0]] + a[1..] && b == [b[0]] + b[1..];
    }
  }

  /** Strict lexicographic order, as byte vectors are compared. */
  predicate Less(a: bytes, b: bytes)
    ensures Less(a, b) <==> Rank(a) < Rank(b)
    ensures Rank(a) == Rank(b) ==> a == b
  {
    RankInjective(a, b);
    b != [] && (a == [] || a[0] < b[0] || (a[0] == b[0] && Less(a[1..], b[1..])))
  }
}
