/** Document keys and their escaped, order-preserving encoding
    (dodb-core/src/key.rs). */
module KeyCodec {
  import opened Lex

  datatype DocumentKey = DocumentKey(pk: bytes, sk: bytes)

  datatype CodecError =
    | TruncatedEscape(offset: nat)
    | InvalidEscape(offset: nat, value: byte)
    | MissingComponent(offset: nat)
    | TrailingBytes(offset: nat)

  datatype Decoded<+T> = Good(value: T) | Bad(error: CodecError)

  /** Keys compare by primary key, then by sort key. */
  predicate KeyLess(a: DocumentKey, b: DocumentKey) {
    Less(a.pk, b.pk) || (a.pk == b.pk && Less(a.sk, b.sk))
  }

  // ---------------------------------------------------------------- encoding

  /** Zero bytes are escaped as 00 FF and the component ends with 00 00. */
  ghost function Escaped(s: bytes): bytes {
    if s == [] then [0, 0]
    else (if s[0] == 0 then [0, 255] else [s[0]]) + Escaped(s[1..])
  }

  ghost function Encoded(key: DocumentKey): bytes {
    Escaped(key.pk) + Escaped(key.sk)
  }

  method EncodeComponent(s: bytes, output: bytes) returns (result: bytes)
    ensures result == output + Escaped(s)
  {
    result := output;
    for i := 0 to |s|
      invariant result + Escaped(s[i..]) == output + Escaped(s)
    {
      ghost var before := result;
      if s[i] == 0 {
        result := result + [0, 255];
      } else {
        result := result + [s[i]];
      }
      assert s[i..][1..] == s[i + 1..];
      assert result + Escaped(s[i + 1..]) == before + Escaped(s[i..]);
    }
    assert s[|s|..] == [];
    result := result + [0, 0];
  }

  method Encode(key: DocumentKey) returns (encoded: bytes)
    ensures encoded == Encoded(key)
  {
    encoded := EncodeComponent(key.pk, []);
    encoded := EncodeComponent(key.sk, encoded);
  }

  function Zeros(s: bytes): nat {
    if s == [] then 0 else (if s[0] == 0 then 1 else 0) + Zeros(s[1..])
  }

  function EncodedComponentLen(s: bytes): nat {
    |s| + Zeros(s) + 2
  }

  function EncodedLen(key: DocumentKey): nat {
    EncodedComponentLen(key.pk) + EncodedComponentLen(key.sk)
  }

  lemma {:induction false} EscapedLength(s: bytes)
    ensures |Escaped(s)| == EncodedComponentLen(s)
  {
    if s != [] {
      EscapedLength(s[1..]);
    }
  }

  /** The length computed without encoding is exact. */
  lemma EncodedLenExact(key: DocumentKey)
    ensures |Encoded(key)| == EncodedLen(key)
  {
    EscapedLength(key.pk);
    EscapedLength(key.sk);
  }

  // ---------------------------------------------------------------- decoding

  /** Decoding one component from the front of s; positions are reported
      relative to `at`.  The result carries the number of bytes consumed. */
  ghost function Unescaped(s: bytes, at: nat): Decoded<(bytes, nat)> {
    if s == [] then Bad(TruncatedEscape(at))
    else if s[0] != 0 then
      match Unescaped(s[1..], at + 1)
      case Good((c, n)) => Good(([s[0]] + c, n + 1))
      case Bad(e) => Bad(e)
    else if |s| == 1 then Bad(TruncatedEscape(at))
    else if s[1] == 0 then Good(([], 2))
    else if s[1] == 255 then
      match Unescaped(s[2..], at + 2)
      case Good((c, n)) => Good(([0] + c, n + 2))
      case Bad(e) => Bad(e)
    else Bad(InvalidEscape(at, s[1]))
  }

  ghost function ComponentAt(encoded: bytes, start: nat): Decoded<(bytes, nat)>
    requires start <= |encoded|
  {
    if start >= |encoded| then Bad(MissingComponent(start))
    else match Unescaped(encoded[start..], start)
      case Good((c, n)) => Good((c, start + n))
      case Bad(e) => Bad(e)
  }

  lemma {:induction false} UnescapedConsumes(s: bytes, at: nat)
    ensures Unescaped(s, at).Good? ==>
              var (c, n) := Unescaped(s, at).value; n <= |s| && s[..n] == Escaped(c)
  {
    if s == [] {
    } else if s[0] != 0 {
      UnescapedConsumes(s[1..], at + 1);
      if Unescaped(s[1..], at + 1).Good? {
        var (c, n) := Unescaped(s[1..], at + 1).value;
        assert ([s[0]] + c)[1..] == c;
        assert s[..n + 1] == [s[0]] + s[1..][..n];
      }
    } else if |s| == 1 {
    } else if s[1] == 0 {
      assert s[..2] == [0, 0];
    } else if s[1] == 255 {
      UnescapedConsumes(s[2..], at + 2);
      if Unescaped(s[2..], at + 2).Good? {
        var (c, n) := Unescaped(s[2..], at + 2).value;
        assert ([0] + c)[1..] == c;
        assert s[..n + 2] == [0, 255] + s[2..][..n];
      }
    }
  }

  ghost function Decode(encoded: bytes): Decoded<DocumentKey> {
    match ComponentAt(encoded, 0)
    case Bad(e) => Bad(e)
    case Good((pk, next)) =>
      UnescapedConsumes(encoded, 0);
      assert encoded[0..] == encoded;
      match ComponentAt(encoded, next)
      case Bad(e) => Bad(e)
      case Good((sk, end)) =>
        if end != |encoded| then Bad(TrailingBytes(end)) else Good(DocumentKey(pk, sk))
  }

  /** What decoding reports once `component` and k bytes are already read. */
  ghost function Resumed(component: bytes, k: nat, r: Decoded<(bytes, nat)>): Decoded<(bytes, nat)> {
    match r
    case Good((c, n)) => Good((component + c, k + n))
    case Bad(e) => Bad(e)
  }

  lemma ResumedStep(component: bytes, k: nat, s: bytes, at: nat)
    requires s != []
    ensures s[0] != 0 ==>
              Resumed(component, k, Unescaped(s, at)) == Resumed(component + [s[0]], k + 1, Unescaped(s[1..], at + 1))
    ensures s[0] == 0 && |s| > 1 && s[1] == 255 ==>
              Resumed(component, k, Unescaped(s, at)) == Resumed(component + [0], k + 2, Unescaped(s[2..], at + 2))
    ensures s[0] == 0 && |s| > 1 && s[1] == 0 ==> Resumed(component, k, Unescaped(s, at)) == Good((component, k + 2))
    ensures s[0] == 0 && |s| == 1 ==> Resumed(component, k, Unescaped(s, at)) == Bad(TruncatedEscape(at))
  {
    assert component + [] == component;
    if s[0] != 0 && Unescaped(s[1..], at + 1).Good? {
      var c := Unescaped(s[1..], at + 1).value.0;
      assert component + ([s[0]] + c) == component + [s[0]] + c;
    }
    if s[0] == 0 && |s| > 1 && s[1] == 255 && Unescaped(s[2..], at + 2).Good? {
      var c := Unescaped(s[2..], at + 2).value.0;
      assert component + ([0] + c) == component + [0] + c;
    }
  }

  method DecodeComponent(encoded: bytes, start: nat) returns (r: Decoded<(bytes, nat)>)
    requires start <= |encoded|
    ensures r == ComponentAt(encoded, start)
    ensures r.Good? ==> r.value.1 <= |encoded|
  {
    if start >= |encoded| {
      return Bad(MissingComponent(start));
    }
    UnescapedConsumes(encoded[start..], start);
    ghost var whole := Unescaped(encoded[start..], start);
    var component: bytes := [];
    var offset := start;
    assert whole.Good? ==> [] + whole.value.0 == whole.value.0;
    while offset < |encoded|
      invariant start <= offset <= |encoded|
      invariant whole == Resumed(component, offset - start, Unescaped(encoded[offset..], offset))
    {
      ghost var rest := encoded[offset..];
      ResumedStep(component, offset - start, rest, offset);
      var value := encoded[offset];
      if value != 0 {
        assert rest[1..] == encoded[offset + 1..];
        component := component + [value];
        offset := offset + 1;
        continue;
      }
      if offset + 1 >= |encoded| {
        return Bad(TruncatedEscape(offset));
      }
      var escape := encoded[offset + 1];
      if escape == 0 {
        return Good((component, offset + 2));
      } else if escape == 255 {
        assert rest[2..] == encoded[offset + 2..];
        component := component + [0];
        offset := offset + 2;
      } else {
        return Bad(InvalidEscape(offset, escape));
      }
    }
    return Bad(TruncatedEscape(offset));
  }

  method DecodeKey(encoded: bytes) returns (r: Decoded<DocumentKey>)
    ensures r == Decode(encoded)
  {
    var first := DecodeComponent(encoded, 0);
    if first.Bad? {
      return Bad(first.error);
    }
    var second := DecodeComponent(encoded, first.value.1);
    if second.Bad? {
      return Bad(second.error);
    }
    if second.value.1 != |encoded| {
      return Bad(TrailingBytes(second.value.1));
    }
    return Good(DocumentKey(first.value.0, second.value.0));
  }

  // ---------------------------------------------------------------- round trips

  lemma {:induction false} UnescapedEscaped(s: bytes, rest: bytes, at: nat)
    ensures Unescaped(Escaped(s) + rest, at) == Good((s, |Escaped(s)|))
  {
    var e := Escaped(s) + rest;
    if s == [] {
    } else if s[0] == 0 {
      assert e[2..] == Escaped(s[1..]) + rest;
      UnescapedEscaped(s[1..], rest, at + 2);
      assert [0] + s[1..] == s;
    } else {
      assert e[1..] == Escaped(s[1..]) + rest;
      UnescapedEscaped(s[1..], rest, at + 1);
      assert [s[0]] + s[1..] == s;
    }
  }

  lemma DecodeEncoded(key: DocumentKey)
    ensures Decode(Encoded(key)) == Good(key)
  {
    var e := Encoded(key);
    EscapedLength(key.pk);
    EscapedLength(key.sk);
    UnescapedEscaped(key.pk, Escaped(key.sk), 0);
    assert e[0..] == e;
    var n := |Escaped(key.pk)|;
    assert e[n..] == Escaped(key.sk) + [];
    UnescapedEscaped(key.sk, [], n);
  }

  /** Every accepted byte string is the encoding of what it decodes to. */
  lemma EncodedDecode(e: bytes)
    ensures Decode(e).Good? ==> Encoded(Decode(e).value) == e
  {
    if Decode(e).Good? {
      assert e[0..] == e;
      UnescapedConsumes(e, 0);
      var (pk, n) := Unescaped(e, 0).value;
      UnescapedConsumes(e[n..], n);
      var (sk, m) := Unescaped(e[n..], n).value;
      assert e == e[..n] + e[n..] && e[n..][..m] == e[n..];
    }
  }

  // ---------------------------------------------------------------- order

  lemma LessCons(x: byte, a: bytes, y: byte, b: bytes)
    ensures Less([x] + a, [y] + b) <==> x < y || (x == y && Less(a, b))
  {
    assert ([x] + a)[1..] == a && ([y] + b)[1..] == b;
  }

  /** An empty component comes first. */
  lemma EscapedEmptyFirst(x: bytes, b: bytes, y: bytes)
    requires b != []
    ensures Less(Escaped([]) + x, Escaped(b) + y)
  {
    EscapedStep(b, y);
    assert Escaped([]) + x == [0] + ([0] + x);
    LessCons(0, [0] + x, b[0], EscapedTail(b, y));
    LessCons(0, x, 255, Escaped(b[1..]) + y);
  }

  /** Escaping keeps the order of different components, whatever follows. */
  lemma {:induction false} EscapedOrder(a: bytes, x: bytes, b: bytes, y: bytes)
    requires a != b
    ensures Less(Escaped(a) + x, Escaped(b) + y) <==> Less(a, b)
  {
    hide Escaped, EscapedTail, Less;
    if a == [] {
      EscapedEmptyFirst(x, b, y);
    } else if b == [] {
      EscapedEmptyFirst(y, a, x);
    } else {
      EscapedStep(a, x);
      EscapedStep(b, y);
      LessCons(a[0], EscapedTail(a, x), b[0], EscapedTail(b, y));
      LessCons(a[0], a[1..], b[0], b[1..]);
      assert a == [a[0]] + a[1..] && b == [b[0]] + b[1..];
      if a[0] == b[0] {
        EscapedOrder(a[1..], x, b[1..], y);
        TailOrder(a, x, b, y);
      }
    }
  }

  /** What follows the first byte of an escaped non-empty component. */
  ghost function EscapedTail(a: bytes, x: bytes): bytes
    requires a != []
  {
    if a[0] == 0 then [255] + (Escaped(a[1..]) + x) else Escaped(a[1..]) + x
  }

  lemma TailOrder(a: bytes, x: bytes, b: bytes, y: bytes)
    requires a != [] && b != [] && a[0] == b[0]
    ensures Less(EscapedTail(a, x), EscapedTail(b, y)) <==> Less(Escaped(a[1..]) + x, Escaped(b[1..]) + y)
  {
    hide Escaped, Less;
    LessCons(255, Escaped(a[1..]) + x, 255, Escaped(b[1..]) + y);
  }

  lemma EscapedStep(a: bytes, x: bytes)
    requires a != []
    ensures Escaped(a) + x == [a[0]] + EscapedTail(a, x)
  {
    var rest := Escaped(a[1..]);
    if a[0] == 0 {
      ConsTwo(0, 255, rest, x);
    } else {
      ConsOne(a[0], rest, x);
    }
  }

  lemma ConsOne(b: byte, s: bytes, x: bytes)
    ensures [b] + s + x == [b] + (s + x)
  {
  }

  lemma ConsTwo(b: byte, c: byte, s: bytes, x: bytes)
    ensures [b, c] + s + x == [b] + ([c] + (s + x))
  {
    assert [b, c] == [b] + [c];
    ConsOne(b, [c] + s, x);
    ConsOne(c, s, x);
    ConsOne(b, [c], s);
  }

  lemma {:induction false} LessPrefix(p: bytes, a: bytes, b: bytes)
    ensures Less(p + a, p + b) <==> Less(a, b)
  {
    if p == [] {
      assert p + a == a && p + b == b;
    } else {
      assert p + a == [p[0]] + (p[1..] + a) && p + b == [p[0]] + (p[1..] + b);
      LessCons(p[0], p[1..] + a, p[0], p[1..] + b);
      LessPrefix(p[1..], a, b);
    }
  }

  /** The encoding is an order isomorphism onto its image. */
  lemma EncodedOrder(a: DocumentKey, b: DocumentKey)
    ensures Less(Encoded(a), Encoded(b)) <==> KeyLess(a, b)
  {
    if a.pk != b.pk {
      EscapedOrder(a.pk, Escaped(a.sk), b.pk, Escaped(b.sk));
    } else {
      LessPrefix(Escaped(a.pk), Escaped(a.sk), Escaped(b.sk));
      if a.sk != b.sk {
        EscapedOrder(a.sk, [], b.sk, []);
        assert Escaped(a.sk) + [] == Escaped(a.sk) && Escaped(b.sk) + [] == Escaped(b.sk);
      }
    }
  }

  /** The keys of one primary key are contiguous, and the encoding of
      (pk, empty) starts their range. */
  lemma PrimaryKeyRange(pk: bytes, k: DocumentKey, low: DocumentKey, high: DocumentKey)
    ensures k.pk == pk ==> !Less(Encoded(k), Encoded(DocumentKey(pk, [])))
    ensures k.pk != pk ==> (Less(Encoded(k), Encoded(DocumentKey(pk, []))) <==> Less(k.pk, pk))
    ensures low.pk == pk == high.pk && !Less(Encoded(k), Encoded(low)) && !Less(Encoded(high), Encoded(k)) ==> k.pk == pk
  {
    EncodedOrder(k, DocumentKey(pk, []));
    EncodedOrder(k, low);
    EncodedOrder(high, k);
  }
}
