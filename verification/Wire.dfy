/** The fields of the wire protocol (dodb-protocol/src/lib.rs): how each is
    written, and how it is read from the front of some bytes.  A reader returns
    the value and the number of bytes it took. */
module Wire {
  import opened Lex
  import opened Pages

  const U32_RANGE: nat := 0x1_0000_0000
  const U64_RANGE: nat := 0x1_0000_0000_0000_0000

  type Written = Option<bytes>
  type Taken<+T> = Option<(T, nat)>

  // ---------------------------------------------------------------- sequencing

  function Then(a: Written, b: Written): Written {
    if a.Some? && b.Some? then Some(a.value + b.value) else None
  }

  lemma ThenReads(a: bytes, b: bytes, rest: bytes)
    ensures a + b + rest == a + (b + rest) && (a + b + rest)[|a|..] == b + rest
  {
  }

  lemma ThenCanonical(s: bytes, n: nat, m: nat)
    requires n <= |s| && m <= |s[n..]|
    ensures s[..n] + s[n..][..m] == s[..n + m]
  {
  }

  /** One reader after the other. */
  function ReadPair<A, B>(s: bytes, a: bytes -> Taken<A>, b: bytes -> Taken<B>): (r: Taken<(A, B)>)
    ensures r.Some? ==> r.value.1 <= |s|
  {
    match a(s)
    case None => None
    case Some((x, n)) =>
      if n > |s| then None
      else match b(s[n..])
        case None => None
        case Some((y, m)) => if n + m > |s| then None else Some(((x, y), n + m))
  }

  lemma PairReadsBack<A, B>(wa: bytes, wb: bytes, rest: bytes, a: bytes -> Taken<A>, b: bytes -> Taken<B>, x: A, y: B)
    requires a(wa + (wb + rest)) == Some((x, |wa|)) && b(wb + rest) == Some((y, |wb|))
    ensures ReadPair(wa + wb + rest, a, b) == Some(((x, y), |wa + wb|))
  {
    ThenReads(wa, wb, rest);
  }

  /** The parts of what a pair reader took. */
  lemma PairParts<A, B>(s: bytes, a: bytes -> Taken<A>, b: bytes -> Taken<B>)
    requires ReadPair(s, a, b).Some?
    ensures var ((x, y), n) := ReadPair(s, a, b).value;
            a(s).Some? && a(s).value.1 <= |s|
            && var k := a(s).value.1;
               && x == a(s).value.0 && b(s[k..]).Some? && y == b(s[k..]).value.0 && n == k + b(s[k..]).value.1 <= |s|
               && s[..n] == s[..k] + s[k..][..n - k]
  {
  }

  function Tagged(tag: byte, w: Written): Written {
    Then(Some([tag]), w)
  }

  lemma TaggedReads(tag: byte, w: bytes, rest: bytes)
    ensures [tag] + w + rest != [] && ([tag] + w + rest)[0] == tag && ([tag] + w + rest)[1..] == w + rest
  {
  }

  lemma TaggedCanonical(s: bytes, n: nat)
    requires s != [] && n <= |s[1..]|
    ensures Tagged(s[0], Some(s[1..][..n])) == Some(s[..n + 1])
  {
    assert s[..1] == [s[0]];
    ThenCanonical(s, 1, n);
  }

  // ---------------------------------------------------------------- numbers

  function Be(n: nat, x: nat): (r: bytes)
    ensures |r| == n
  {
    if n == 0 then [] else Be(n - 1, x / 256) + [x % 256]
  }

  function FromBe(s: bytes): nat {
    if s == [] then 0 else 256 * FromBe(s[..|s| - 1]) + s[|s| - 1]
  }

  function NumberRange(n: nat): nat {
    if n == 0 then 1 else 256 * NumberRange(n - 1)
  }

  lemma {:induction false} BeFromBe(n: nat, x: nat)
    requires x < NumberRange(n)
    ensures FromBe(Be(n, x)) == x
  {
    if n > 0 {
      BeFromBe(n - 1, x / 256);
      assert Be(n, x)[..n - 1] == Be(n - 1, x / 256);
    }
  }

  lemma {:induction false} FromBeBe(s: bytes)
    ensures FromBe(s) < NumberRange(|s|) && Be(|s|, FromBe(s)) == s
  {
    if s != [] {
      var n := |s| - 1;
      FromBeBe(s[..n]);
      assert FromBe(s) % 256 == s[n] && FromBe(s) / 256 == FromBe(s[..n]);
      assert s == s[..n] + [s[n]];
    }
  }

  lemma NumberRanges()
    ensures NumberRange(2) == 0x1_0000 && NumberRange(4) == U32_RANGE && NumberRange(8) == U64_RANGE
  {
    assert NumberRange(2) == 256 * NumberRange(1);
    assert NumberRange(4) == 256 * NumberRange(3) == 65536 * NumberRange(2);
    assert NumberRange(6) == 256 * NumberRange(5) == 65536 * NumberRange(4);
    assert NumberRange(8) == 256 * NumberRange(7) == 65536 * NumberRange(6);
  }

  /** A number of n bytes; the source's types hold no others. */
  function WriteNumber(n: nat, x: nat): Written {
    if x < NumberRange(n) then Some(Be(n, x)) else None
  }

  function ReadNumber(n: nat, s: bytes): (r: Taken<nat>)
    ensures r.Some? ==> r.value.1 <= |s|
  {
    if n <= |s| then Some((FromBe(s[..n]), n)) else None
  }

  lemma NumberReadsBack(n: nat, x: nat, rest: bytes)
    requires x < NumberRange(n)
    ensures ReadNumber(n, Be(n, x) + rest) == Some((x, n))
  {
    BeFromBe(n, x);
    assert (Be(n, x) + rest)[..n] == Be(n, x);
  }

  lemma NumberCanonical(n: nat, s: bytes)
    requires n <= |s|
    ensures WriteNumber(n, FromBe(s[..n])) == Some(s[..n])
  {
    FromBeBe(s[..n]);
  }

  // ---------------------------------------------------------------- counts and byte strings

  function WriteCount(x: nat, maximum: nat): Written {
    if x > maximum then None else WriteNumber(4, x)
  }

  function ReadCount(s: bytes, maximum: nat): (r: Taken<nat>)
    ensures r.Some? ==> r.value.1 <= |s|
  {
    match ReadNumber(4, s)
    case None => None
    case Some((x, n)) => if x > maximum then None else Some((x, n))
  }

  lemma CountReadsBack(x: nat, maximum: nat, rest: bytes)
    requires WriteCount(x, maximum).Some?
    ensures |WriteCount(x, maximum).value| == 4 && ReadCount(WriteCount(x, maximum).value + rest, maximum) == Some((x, 4))
  {
    NumberReadsBack(4, x, rest);
  }

  lemma CountCanonical(s: bytes, maximum: nat)
    requires ReadCount(s, maximum).Some?
    ensures var (x, n) := ReadCount(s, maximum).value; n == 4 <= |s| && WriteCount(x, maximum) == Some(s[..n])
  {
    NumberCanonical(4, s);
  }

  function WriteBytes(b: bytes, maximum: nat): Written {
    Then(WriteCount(|b|, maximum), Some(b))
  }

  function ReadBytes(s: bytes, maximum: nat): (r: Taken<bytes>)
    ensures r.Some? ==> r.value.1 <= |s|
  {
    match ReadCount(s, maximum)
    case None => None
    case Some((length, n)) => if n + length <= |s| then Some((s[n..n + length], n + length)) else None
  }

  lemma BytesReadBack(b: bytes, maximum: nat, rest: bytes)
    requires WriteBytes(b, maximum).Some?
    ensures |WriteBytes(b, maximum).value| == 4 + |b|
    ensures ReadBytes(WriteBytes(b, maximum).value + rest, maximum) == Some((b, 4 + |b|))
  {
    hide WriteCount, ReadCount;
    var head := WriteCount(|b|, maximum).value;
    CountReadsBack(|b|, maximum, b + rest);
    ThenReads(head, b, rest);
    assert (head + b + rest)[4..4 + |b|] == b;
  }

  lemma BytesCanonical(s: bytes, maximum: nat)
    requires ReadBytes(s, maximum).Some?
    ensures var (b, n) := ReadBytes(s, maximum).value; n <= |s| && WriteBytes(b, maximum) == Some(s[..n])
  {
    hide WriteCount, ReadCount;
    CountCanonical(s, maximum);
    var (length, n) := ReadCount(s, maximum).value;
    assert s[..n] + s[n..n + length] == s[..n + length];
  }

  // ---------------------------------------------------------------- lists

  /** Elements one after the other. */
  function WriteAll<T>(xs: seq<T>, write: T -> Written): Written {
    if xs == [] then Some([]) else Then(write(xs[0]), WriteAll(xs[1..], write))
  }

  function ReadAll<T>(s: bytes, count: nat, read: bytes -> Taken<T>): Taken<seq<T>> {
    if count == 0 then Some(([], 0))
    else match read(s)
      case None => None
      case Some((x, n)) =>
        if n > |s| then None
        else match ReadAll(s[n..], count - 1, read)
          case None => None
          case Some((xs, m)) => Some(([x] + xs, n + m))
  }

  /** Written elements read back, whatever follows them. */
  ghost predicate ReadsBack<T(!new)>(write: T -> Written, read: bytes -> Taken<T>) {
    forall x, rest :: write(x).Some? ==> read(write(x).value + rest) == Some((x, |write(x).value|))
  }

  /** What is read is what would be written. */
  ghost predicate Canonical<T(!new)>(write: T -> Written, read: bytes -> Taken<T>) {
    forall s :: read(s).Some? ==> read(s).value.1 <= |s| && write(read(s).value.0) == Some(s[..read(s).value.1])
  }

  lemma {:induction false} AllReadBack<T(!new)>(xs: seq<T>, write: T -> Written, read: bytes -> Taken<T>, rest: bytes)
    requires ReadsBack(write, read) && WriteAll(xs, write).Some?
    ensures ReadAll(WriteAll(xs, write).value + rest, |xs|, read) == Some((xs, |WriteAll(xs, write).value|))
  {
    if xs != [] {
      var head, tail := write(xs[0]).value, WriteAll(xs[1..], write).value;
      ThenReads(head, tail, rest);
      AllReadBack(xs[1..], write, read, rest);
      assert read(head + (tail + rest)) == Some((xs[0], |head|));
      assert xs == [xs[0]] + xs[1..];
    }
  }

  lemma {:induction false} AllCanonical<T(!new)>(s: bytes, count: nat, write: T -> Written, read: bytes -> Taken<T>)
    requires Canonical(write, read) && ReadAll(s, count, read).Some?
    ensures var (xs, n) := ReadAll(s, count, read).value; n <= |s| && |xs| == count && WriteAll(xs, write) == Some(s[..n])
  {
    if count > 0 {
      var (x, n) := read(s).value;
      AllCanonical(s[n..], count - 1, write, read);
      var (xs, m) := ReadAll(s[n..], count - 1, read).value;
      ThenCanonical(s, n, m);
      assert ([x] + xs)[1..] == xs;
    }
  }

  /** A count and that many elements. */
  function WriteList<T>(xs: seq<T>, maximum: nat, write: T -> Written): Written {
    Then(WriteCount(|xs|, maximum), WriteAll(xs, write))
  }

  function ReadList<T>(s: bytes, maximum: nat, read: bytes -> Taken<T>): Taken<seq<T>> {
    match ReadCount(s, maximum)
    case None => None
    case Some((count, n)) =>
      if n > |s| then None
      else match ReadAll(s[n..], count, read)
        case None => None
        case Some((xs, m)) => Some((xs, n + m))
  }

  lemma ListReadsBack<T(!new)>(xs: seq<T>, maximum: nat, write: T -> Written, read: bytes -> Taken<T>, rest: bytes)
    requires ReadsBack(write, read) && WriteList(xs, maximum, write).Some?
    ensures ReadList(WriteList(xs, maximum, write).value + rest, maximum, read) == Some((xs, |WriteList(xs, maximum, write).value|))
  {
    hide WriteCount, ReadCount, ReadAll, WriteAll;
    var head, tail := WriteCount(|xs|, maximum).value, WriteAll(xs, write).value;
    ThenReads(head, tail, rest);
    CountReadsBack(|xs|, maximum, tail + rest);
    AllReadBack(xs, write, read, rest);
  }

  lemma ListCanonical<T(!new)>(s: bytes, maximum: nat, write: T -> Written, read: bytes -> Taken<T>)
    requires Canonical(write, read) && ReadList(s, maximum, read).Some?
    ensures var (xs, n) := ReadList(s, maximum, read).value; n <= |s| && WriteList(xs, maximum, write) == Some(s[..n])
  {
    hide WriteCount, ReadCount, ReadAll, WriteAll;
    CountCanonical(s, maximum);
    var (count, n) := ReadCount(s, maximum).value;
    AllCanonical(s[n..], count, write, read);
    ThenCanonical(s, n, ReadAll(s[n..], count, read).value.1);
  }
}
