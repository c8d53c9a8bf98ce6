/** The parts of requests and responses on the wire
    (dodb-protocol/src/lib.rs). */
module Messages {
  import opened Lex
  import opened Pages
  import opened KeyCodec
  import opened Reference
  import opened Errors
  import opened Transactions
  import opened Wire

  datatype Limits = Limits(
    requestFrame: nat, responseFrame: nat, keyComponent: nat, encodedKey: nat, value: nat, keys: nat,
    conditions: nat, mutations: nat, queryLimit: nat, scanLimit: nat, errorDetail: nat)

  // ---------------------------------------------------------------- keys

  function WriteKey(key: DocumentKey, l: Limits): Written {
    if EncodedLen(key) > l.encodedKey then None
    else Then(WriteBytes(key.pk, l.keyComponent), WriteBytes(key.sk, l.keyComponent))
  }

  function ReadKey(s: bytes, l: Limits): (r: Taken<DocumentKey>)
    ensures r.Some? ==> r.value.1 <= |s|
  {
    match ReadPair(s, r => ReadBytes(r, l.keyComponent), r => ReadBytes(r, l.keyComponent))
    case None => None
    case Some(((pk, sk), n)) => if EncodedLen(DocumentKey(pk, sk)) > l.encodedKey then None else Some((DocumentKey(pk, sk), n))
  }

  lemma KeyReadsBack(key: DocumentKey, l: Limits, rest: bytes)
    requires WriteKey(key, l).Some?
    ensures |WriteKey(key, l).value| == 8 + |key.pk| + |key.sk|
    ensures ReadKey(WriteKey(key, l).value + rest, l) == Some((key, |WriteKey(key, l).value|))
  {
    hide WriteBytes, ReadBytes, EncodedLen;
    var pk, sk := WriteBytes(key.pk, l.keyComponent).value, WriteBytes(key.sk, l.keyComponent).value;
    BytesReadBack(key.pk, l.keyComponent, sk + rest);
    BytesReadBack(key.sk, l.keyComponent, rest);
    PairReadsBack(pk, sk, rest, r => ReadBytes(r, l.keyComponent), r => ReadBytes(r, l.keyComponent), key.pk, key.sk);
  }

  lemma KeyCanonical(s: bytes, l: Limits)
    requires ReadKey(s, l).Some?
    ensures var (key, n) := ReadKey(s, l).value; WriteKey(key, l) == Some(s[..n])
  {
    hide WriteBytes, ReadBytes, EncodedLen;
    var read := r => ReadBytes(r, l.keyComponent);
    PairParts(s, read, read);
    BytesCanonical(s, l.keyComponent);
    BytesCanonical(s[read(s).value.1..], l.keyComponent);
  }

  // ---------------------------------------------------------------- optional parts

  function WriteOptionalKey(key: Option<DocumentKey>, l: Limits): Written {
    if key.Some? then Tagged(1, WriteKey(key.value, l)) else Some([0])
  }

  function ReadOptionalKey(s: bytes, l: Limits): (r: Taken<Option<DocumentKey>>)
    ensures r.Some? ==> r.value.1 <= |s|
  {
    if s == [] then None
    else if s[0] == 0 then Some((None, 1))
    else if s[0] == 1 then
      match ReadKey(s[1..], l) case None => None case Some((key, n)) => Some((Some(key), n + 1))
    else None
  }

  lemma OptionalKeyReadsBack(key: Option<DocumentKey>, l: Limits, rest: bytes)
    requires WriteOptionalKey(key, l).Some?
    ensures ReadOptionalKey(WriteOptionalKey(key, l).value + rest, l) == Some((key, |WriteOptionalKey(key, l).value|))
  {
    hide WriteKey, ReadKey;
    if key.Some? {
      TaggedReads(1, WriteKey(key.value, l).value, rest);
      KeyReadsBack(key.value, l, rest);
    }
  }

  lemma OptionalKeyCanonical(s: bytes, l: Limits)
    requires ReadOptionalKey(s, l).Some?
    ensures var (key, n) := ReadOptionalKey(s, l).value; WriteOptionalKey(key, l) == Some(s[..n])
  {
    hide WriteKey, ReadKey;
    if s[0] == 1 {
      KeyCanonical(s[1..], l);
      TaggedCanonical(s, ReadKey(s[1..], l).value.1);
    } else {
      assert s[..1] == [0];
    }
  }

  function WriteOptionalBytes(b: Option<bytes>, maximum: nat): Written {
    if b.Some? then Tagged(1, WriteBytes(b.value, maximum)) else Some([0])
  }

  function ReadOptionalBytes(s: bytes, maximum: nat): (r: Taken<Option<bytes>>)
    ensures r.Some? ==> r.value.1 <= |s|
  {
    if s == [] then None
    else if s[0] == 0 then Some((None, 1))
    else if s[0] == 1 then
      match ReadBytes(s[1..], maximum) case None => None case Some((b, n)) => Some((Some(b), n + 1))
    else None
  }

  lemma OptionalBytesReadBack(b: Option<bytes>, maximum: nat, rest: bytes)
    requires WriteOptionalBytes(b, maximum).Some?
    ensures ReadOptionalBytes(WriteOptionalBytes(b, maximum).value + rest, maximum) == Some((b, |WriteOptionalBytes(b, maximum).value|))
  {
    hide WriteBytes, ReadBytes;
    if b.Some? {
      TaggedReads(1, WriteBytes(b.value, maximum).value, rest);
      BytesReadBack(b.value, maximum, rest);
    }
  }

  lemma OptionalBytesCanonical(s: bytes, maximum: nat)
    requires ReadOptionalBytes(s, maximum).Some?
    ensures var (b, n) := ReadOptionalBytes(s, maximum).value; WriteOptionalBytes(b, maximum) == Some(s[..n])
  {
    hide WriteBytes, ReadBytes;
    if s[0] == 1 {
      BytesCanonical(s[1..], maximum);
      TaggedCanonical(s, ReadBytes(s[1..], maximum).value.1);
    } else {
      assert s[..1] == [0];
    }
  }

  // ---------------------------------------------------------------- values with revisions

  function WriteValueAt(value: bytes, revision: nat, l: Limits): Written {
    Then(WriteBytes(value, l.value), WriteNumber(8, revision))
  }

  function ReadValueAt(s: bytes, l: Limits): (r: Taken<(bytes, nat)>)
    ensures r.Some? ==> r.value.1 <= |s|
  {
    ReadPair(s, r => ReadBytes(r, l.value), r => ReadNumber(8, r))
  }

  lemma ValueAtReadsBack(value: bytes, revision: nat, l: Limits, rest: bytes)
    requires WriteValueAt(value, revision, l).Some?
    ensures |WriteValueAt(value, revision, l).value| == 12 + |value|
    ensures ReadValueAt(WriteValueAt(value, revision, l).value + rest, l) == Some(((value, revision), 12 + |value|))
  {
    hide WriteBytes, ReadBytes, ReadNumber;
    BytesReadBack(value, l.value, Be(8, revision) + rest);
    NumberReadsBack(8, revision, rest);
    PairReadsBack(WriteBytes(value, l.value).value, Be(8, revision), rest, r => ReadBytes(r, l.value), r => ReadNumber(8, r), value, revision);
  }

  lemma ValueAtCanonical(s: bytes, l: Limits)
    requires ReadValueAt(s, l).Some?
    ensures var ((value, revision), n) := ReadValueAt(s, l).value; WriteValueAt(value, revision, l) == Some(s[..n])
  {
    hide WriteBytes, ReadBytes, WriteNumber;
    var first, second := r => ReadBytes(r, l.value), r => ReadNumber(8, r);
    PairParts(s, first, second);
    BytesCanonical(s, l.value);
    NumberCanonical(8, s[first(s).value.1..]);
  }

  function WriteState(state: RevisionState, l: Limits): Written {
    match state
    case Present(value, revision) => Tagged(0, WriteValueAt(value, revision, l))
    case Missing(revision) => Tagged(1, WriteNumber(8, revision))
  }

  function ReadState(s: bytes, l: Limits): (r: Taken<RevisionState>)
    ensures r.Some? ==> r.value.1 <= |s|
  {
    if s == [] then None
    else if s[0] == 0 then
      match ReadValueAt(s[1..], l) case None => None case Some(((value, revision), n)) => Some((Present(value, revision), n + 1))
    else if s[0] == 1 then
      match ReadNumber(8, s[1..]) case None => None case Some((revision, n)) => Some((Missing(revision), n + 1))
    else None
  }

  lemma StateReadsBack(state: RevisionState, l: Limits, rest: bytes)
    requires WriteState(state, l).Some?
    ensures |WriteState(state, l).value| == if state.Present? then 13 + |state.value| else 9
    ensures ReadState(WriteState(state, l).value + rest, l) == Some((state, |WriteState(state, l).value|))
  {
    hide WriteValueAt, ReadValueAt, ReadNumber;
    match state
    case Present(value, revision) =>
      TaggedReads(0, WriteValueAt(value, revision, l).value, rest);
      ValueAtReadsBack(value, revision, l, rest);
    case Missing(revision) =>
      TaggedReads(1, Be(8, revision), rest);
      NumberReadsBack(8, revision, rest);
  }

  lemma StateCanonical(s: bytes, l: Limits)
    requires ReadState(s, l).Some?
    ensures var (state, n) := ReadState(s, l).value; WriteState(state, l) == Some(s[..n])
  {
    hide WriteValueAt, ReadValueAt, WriteNumber;
    if s[0] == 0 {
      ValueAtCanonical(s[1..], l);
      TaggedCanonical(s, ReadValueAt(s[1..], l).value.1);
    } else {
      NumberCanonical(8, s[1..]);
      TaggedCanonical(s, 8);
    }
  }

  // ---------------------------------------------------------------- documents

  function WriteDocument(d: Document, l: Limits): Written {
    Then(WriteKey(d.key, l), WriteValueAt(d.value, d.revision, l))
  }

  function ReadDocument(s: bytes, l: Limits): (r: Taken<Document>)
    ensures r.Some? ==> r.value.1 <= |s|
  {
    match ReadPair(s, r => ReadKey(r, l), r => ReadValueAt(r, l))
    case None => None
    case Some(((key, v), n)) => Some((Document(key, v.0, v.1), n))
  }

  lemma DocumentReadsBack(d: Document, l: Limits, rest: bytes)
    requires WriteDocument(d, l).Some?
    ensures |WriteDocument(d, l).value| == 20 + |d.key.pk| + |d.key.sk| + |d.value|
    ensures ReadDocument(WriteDocument(d, l).value + rest, l) == Some((d, |WriteDocument(d, l).value|))
  {
    hide WriteKey, ReadKey, WriteValueAt, ReadValueAt;
    var a, b := WriteKey(d.key, l).value, WriteValueAt(d.value, d.revision, l).value;
    KeyReadsBack(d.key, l, b + rest);
    ValueAtReadsBack(d.value, d.revision, l, rest);
    PairReadsBack(a, b, rest, r => ReadKey(r, l), r => ReadValueAt(r, l), d.key, (d.value, d.revision));
  }

  lemma DocumentCanonical(s: bytes, l: Limits)
    requires ReadDocument(s, l).Some?
    ensures var (d, n) := ReadDocument(s, l).value; WriteDocument(d, l) == Some(s[..n])
  {
    hide WriteKey, ReadKey, WriteValueAt, ReadValueAt;
    var first, second := r => ReadKey(r, l), r => ReadValueAt(r, l);
    PairParts(s, first, second);
    KeyCanonical(s, l);
    ValueAtCanonical(s[first(s).value.1..], l);
  }

  // ---------------------------------------------------------------- conditions and mutations

  function WriteKeyAt(key: DocumentKey, revision: nat, l: Limits): Written {
    Then(WriteKey(key, l), WriteNumber(8, revision))
  }

  function ReadKeyAt(s: bytes, l: Limits): (r: Taken<(DocumentKey, nat)>)
    ensures r.Some? ==> r.value.1 <= |s|
  {
    ReadPair(s, r => ReadKey(r, l), r => ReadNumber(8, r))
  }

  lemma KeyAtReadsBack(key: DocumentKey, revision: nat, l: Limits, rest: bytes)
    requires WriteKeyAt(key, revision, l).Some?
    ensures ReadKeyAt(WriteKeyAt(key, revision, l).value + rest, l) == Some(((key, revision), |WriteKeyAt(key, revision, l).value|))
  {
    hide WriteKey, ReadKey, ReadNumber;
    KeyReadsBack(key, l, Be(8, revision) + rest);
    NumberReadsBack(8, revision, rest);
    PairReadsBack(WriteKey(key, l).value, Be(8, revision), rest, r => ReadKey(r, l), r => ReadNumber(8, r), key, revision);
  }

  lemma KeyAtCanonical(s: bytes, l: Limits)
    requires ReadKeyAt(s, l).Some?
    ensures var ((key, revision), n) := ReadKeyAt(s, l).value; WriteKeyAt(key, revision, l) == Some(s[..n])
  {
    hide WriteKey, ReadKey, WriteNumber;
    var first, second := r => ReadKey(r, l), r => ReadNumber(8, r);
    PairParts(s, first, second);
    KeyCanonical(s, l);
    NumberCanonical(8, s[first(s).value.1..]);
  }

  function WriteCondition(c: Condition, l: Limits): Written {
    match c
    case RevisionEquals(key, revision) => Tagged(0, WriteKeyAt(key, revision, l))
    case Exists(key) => Tagged(1, WriteKey(key, l))
    case NotExists(key) => Tagged(2, WriteKey(key, l))
  }

  function ReadCondition(s: bytes, l: Limits): (r: Taken<Condition>)
    ensures r.Some? ==> r.value.1 <= |s|
  {
    if s == [] then None
    else if s[0] == 0 then
      match ReadKeyAt(s[1..], l) case None => None case Some(((key, revision), n)) => Some((RevisionEquals(key, revision), n + 1))
    else if s[0] == 1 || s[0] == 2 then
      match ReadKey(s[1..], l) case None => None case Some((key, n)) => Some((if s[0] == 1 then Exists(key) else NotExists(key), n + 1))
    else None
  }

  lemma ConditionReadsBack(c: Condition, l: Limits, rest: bytes)
    requires WriteCondition(c, l).Some?
    ensures ReadCondition(WriteCondition(c, l).value + rest, l) == Some((c, |WriteCondition(c, l).value|))
  {
    hide WriteKey, ReadKey, WriteKeyAt, ReadKeyAt;
    match c
    case RevisionEquals(key, revision) =>
      TaggedReads(0, WriteKeyAt(key, revision, l).value, rest);
      KeyAtReadsBack(key, revision, l, rest);
    case Exists(key) =>
      TaggedReads(1, WriteKey(key, l).value, rest);
      KeyReadsBack(key, l, rest);
    case NotExists(key) =>
      TaggedReads(2, WriteKey(key, l).value, rest);
      KeyReadsBack(key, l, rest);
  }

  lemma ConditionCanonical(s: bytes, l: Limits)
    requires ReadCondition(s, l).Some?
    ensures var (c, n) := ReadCondition(s, l).value; WriteCondition(c, l) == Some(s[..n])
  {
    hide WriteKey, ReadKey, WriteKeyAt, ReadKeyAt;
    if s[0] == 0 {
      KeyAtCanonical(s[1..], l);
      TaggedCanonical(s, ReadKeyAt(s[1..], l).value.1);
    } else {
      KeyCanonical(s[1..], l);
      TaggedCanonical(s, ReadKey(s[1..], l).value.1);
    }
  }

  function WriteKeyValue(key: DocumentKey, value: bytes, l: Limits): Written {
    Then(WriteKey(key, l), WriteBytes(value, l.value))
  }

  function ReadKeyValue(s: bytes, l: Limits): (r: Taken<(DocumentKey, bytes)>)
    ensures r.Some? ==> r.value.1 <= |s|
  {
    ReadPair(s, r => ReadKey(r, l), r => ReadBytes(r, l.value))
  }

  lemma KeyValueReadsBack(key: DocumentKey, value: bytes, l: Limits, rest: bytes)
    requires WriteKeyValue(key, value, l).Some?
    ensures ReadKeyValue(WriteKeyValue(key, value, l).value + rest, l) == Some(((key, value), |WriteKeyValue(key, value, l).value|))
  {
    hide WriteKey, ReadKey, WriteBytes, ReadBytes;
    var a, b := WriteKey(key, l).value, WriteBytes(value, l.value).value;
    KeyReadsBack(key, l, b + rest);
    BytesReadBack(value, l.value, rest);
    PairReadsBack(a, b, rest, r => ReadKey(r, l), r => ReadBytes(r, l.value), key, value);
  }

  lemma KeyValueCanonical(s: bytes, l: Limits)
    requires ReadKeyValue(s, l).Some?
    ensures var ((key, value), n) := ReadKeyValue(s, l).value; WriteKeyValue(key, value, l) == Some(s[..n])
  {
    hide WriteKey, ReadKey, WriteBytes, ReadBytes;
    var first, second := r => ReadKey(r, l), r => ReadBytes(r, l.value);
    PairParts(s, first, second);
    KeyCanonical(s, l);
    BytesCanonical(s[first(s).value.1..], l.value);
  }

  function WriteMutation(m: Mutation, l: Limits): Written {
    match m
    case PutMutation(key, value) => Tagged(0, WriteKeyValue(key, value, l))
    case DeleteMutation(key) => Tagged(1, WriteKey(key, l))
  }

  function ReadMutation(s: bytes, l: Limits): (r: Taken<Mutation>)
    ensures r.Some? ==> r.value.1 <= |s|
  {
    if s == [] then None
    else if s[0] == 0 then
      match ReadKeyValue(s[1..], l) case None => None case Some(((key, value), n)) => Some((PutMutation(key, value), n + 1))
    else if s[0] == 1 then
      match ReadKey(s[1..], l) case None => None case Some((key, n)) => Some((DeleteMutation(key), n + 1))
    else None
  }

  lemma MutationReadsBack(m: Mutation, l: Limits, rest: bytes)
    requires WriteMutation(m, l).Some?
    ensures ReadMutation(WriteMutation(m, l).value + rest, l) == Some((m, |WriteMutation(m, l).value|))
  {
    hide WriteKey, ReadKey, WriteKeyValue, ReadKeyValue;
    match m
    case PutMutation(key, value) =>
      TaggedReads(0, WriteKeyValue(key, value, l).value, rest);
      KeyValueReadsBack(key, value, l, rest);
    case DeleteMutation(key) =>
      TaggedReads(1, WriteKey(key, l).value, rest);
      KeyReadsBack(key, l, rest);
  }

  lemma MutationCanonical(s: bytes, l: Limits)
    requires ReadMutation(s, l).Some?
    ensures var (m, n) := ReadMutation(s, l).value; WriteMutation(m, l) == Some(s[..n])
  {
    hide WriteKey, ReadKey, WriteKeyValue, ReadKeyValue;
    if s[0] == 0 {
      KeyValueCanonical(s[1..], l);
      TaggedCanonical(s, ReadKeyValue(s[1..], l).value.1);
    } else {
      KeyCanonical(s[1..], l);
      TaggedCanonical(s, ReadKey(s[1..], l).value.1);
    }
  }
}
